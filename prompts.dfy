/** The text that the agents writing tasks put in front of the language model:
    the two prompt templates shared by lcmeval/agents/taskgen.py and
    lcmeval/agents/task.py (each file carries an identical copy), the block
    listed per API, and the reasoning marker the agents cut replies at. */
module Prompts {
  import opened Wrappers
  import opened Strings
  import opened Combinations
  import opened Coverage

  /** The marker after which a reasoning model's reply carries its answer. */
  const ThinkEnd: string := "</think>"

  lemma ThinkEndShape()
    ensures |ThinkEnd| > 0 && Trimmed(ThinkEnd) && Unbordered(ThinkEnd)
  {
    TagUnbordered(ThinkEnd);
  }

  /** `EXPLICIT_PROMPT_TEMPLATE`: a generated task must name the APIs. */
  const ExplicitTemplate: Template := [
    Text("You are given the following APIs of NumPy:\n\n"),
    Field("api_details"),
    Text("\n\nYour task is to generate a task that can be solved by calling these APIs.\n\n"
      + "Please follow the following rules:\n\n"
      + "1. The task should be a problem that can be solved by calling these APIs.\n"
      + "2. Explicitly ask the user to use numpy to solve the problem with these APIs.\n"
      + "3. Only include the API names in the task description.\n"
      + "4. Do not include any code in the task description.\n"
      + "5. The task should be clear and concise.\n")
  ]

  /** `IMPLICIT_PROMPT_TEMPLATE`: a generated task must not name the APIs. */
  const ImplicitTemplate: Template := [
    Text("You are given the following APIs of NumPy:\n\n"),
    Field("api_details"),
    Text("\n\nYour task is to generate a task that can be solved by calling these APIs.\n\n"
      + "Please follow the following rules:\n\n"
      + "1. The task should be a problem that can be solved by calling these APIs.\n"
      + "2. Explicitly ask the user to use numpy to solve the problem.\n"
      + "3. Do not mention the APIs explicitly in the task description.\n"
      + "4. Do not include any code in the task description.\n"
      + "5. The task should be clear and concise.\n")
  ]

  /** The f-string block the prompt carries for one API. */
  function ApiBlock(name: Name, d: ApiDetail): (r: string)
    ensures "- " + name + ":\n" <= r
    ensures |r| > 0 && r[|r| - 1] == '\n'
  {
    "- " + name + ":\n  description: " + d.description + "\n  parameters: " + d.parameters + "\n"
  }

  /** What the `api_infos` accumulation of `build_prompt` yields: the blocks
      of the names in order, or KeyError at the first name with no entry. */
  function ApiInfos(names: seq<Name>, details: map<Name, ApiDetail>): (r: Result<string, Error>)
    ensures r.Success? <==> forall i :: 0 <= i < |names| ==> names[i] in details
    ensures r.Failure? ==> r.error == KeyError
  {
    if |names| == 0 then Success("")
    else
      var last := names[|names| - 1];
      match ApiInfos(names[..|names| - 1], details)
      case Failure(e) => Failure(e)
      case Success(prefix) =>
        if last in details then Success(prefix + ApiBlock(last, details[last]))
        else Failure(KeyError)
  }

  /** The listing of a concatenation is the concatenation of the listings. */
  lemma {:induction false} ApiInfosAppend(a: seq<Name>, b: seq<Name>, details: map<Name, ApiDetail>)
    requires forall i :: 0 <= i < |a| ==> a[i] in details
    requires forall i :: 0 <= i < |b| ==> b[i] in details
    ensures ApiInfos(a + b, details) == Success(ApiInfos(a, details).value + ApiInfos(b, details).value)
    decreases |b|
  {
    if |b| == 0 {
      assert a + b == a;
      assert ApiInfos(b, details) == Success("");
      assert ApiInfos(a, details).value + "" == ApiInfos(a, details).value;
    } else {
      var b' := b[..|b| - 1];
      assert (a + b)[..|a + b| - 1] == a + b';
      var last := b[|b| - 1];
      assert (a + b)[|a + b| - 1] == last;
      ApiInfosAppend(a, b', details);
      var block := ApiBlock(last, details[last]);
      assert ApiInfos(b, details).value == ApiInfos(b', details).value + block;
      assert forall i :: 0 <= i < |a + b| ==> (a + b)[i] in details;
      assert ApiInfos(a + b, details).value == ApiInfos(a + b', details).value + block;
      var x, y := ApiInfos(a, details).value, ApiInfos(b', details).value;
      assert (x + y) + block == x + (y + block);
    }
  }

  /** Each name's block sits between the listing of the names before it and
      the listing of the names after it: one block per name, in order. */
  lemma ApiInfosAt(names: seq<Name>, details: map<Name, ApiDetail>, i: nat)
    requires i < |names|
    requires forall j :: 0 <= j < |names| ==> names[j] in details
    ensures ApiInfos(names, details).value ==
      ApiInfos(names[..i], details).value + ApiBlock(names[i], details[names[i]])
      + ApiInfos(names[i + 1..], details).value
  {
    assert names == names[..i] + ([names[i]] + names[i + 1..]);
    ApiInfosAppend([names[i]], names[i + 1..], details);
    ApiInfosAppend(names[..i], [names[i]] + names[i + 1..], details);
    assert [names[i]][..0] == [];
  }

  /** A non-empty listing starts with "- " and ends with a newline, so
      `strip()` only removes a whitespace tail, at least that newline. */
  lemma {:induction false} ApiInfosStrip(names: seq<Name>, details: map<Name, ApiDetail>)
    requires |names| > 0
    requires forall j :: 0 <= j < |names| ==> names[j] in details
    ensures var x := ApiInfos(names, details).value;
      && |x| > 0 && x[0] == '-' && x[|x| - 1] == '\n'
      && Hi(x) < |x| && Strip(x) == x[..Hi(x)] && AllSpace(x[Hi(x)..])
  {
    ApiInfosAt(names, details, 0);
    var x := ApiInfos(names, details).value;
    assert names[..0] == [];
    assert x[0] == '-';
    var last := names[|names| - 1];
    assert x == ApiInfos(names[..|names| - 1], details).value + ApiBlock(last, details[last]);
    assert x[|x| - 1] == '\n';
    assert IsSpace(x[|x| - 1]);
    StripTail(x);
  }
}
