# lcmeval core, modelled in Dafny

lcmeval asks a language model to write NumPy tasks and code that must use
given combinations of NumPy APIs. This project models its core in Dafny and
proves properties of the model:

- **the combinatorial coverage tracker** `CTAPICoverage`
  (lcmeval/test_generation/coverage.py). It enumerates the universe of
  size-n API combinations, with the work split by fixed first element. It
  keeps covered and uncovered sets that split that universe, samples an
  uncovered combination, and reports coverage as a percentage;
- **the three agents** `TaskGenAgent`, `TaskAgent` and `CodeGenAgent`
  (lcmeval/agents/taskgen.py, task.py, codegen.py). They build prompts
  from templates and API details, then cut the model's reply at the
  `</think>` reasoning marker and the `<code>` … `</code>` tags. The
  first and last record every exchange in a history;
- **the catalogue merge** of `process_raw_files`
  (lcmeval/crawler/process_numpy_doc.py). It de-duplicates the crawled API
  records per file, using the name and the first 50 characters of the
  description, and keeps what was appended before an exception;
- **the settings update** `update_config` (lcmeval/utils/config.py) and the
  token counter `Usage` (lcmeval/utils/llm.py).

Python built-ins are modelled explicitly in `Strings` and `Combinations`:
`strip` (with the full `isspace` set), `in`, `find`, `partition`, `split`,
`join`, slicing, one-field `str.format`, the order on `str`, `sorted` and
`itertools.combinations`. Exceptions are values: `Result`/`Outcome` over
`KeyError`, `TypeError`, `ValueError` and `IndexError`. The model's reply,
the files read and path resolution are parameters.

Modules:

- `Wrappers`: Option, Result, Outcome and the error kinds.
- `Strings`: the Python string operations.
- `Combinations`: `sorted`, `itertools.combinations`, `generate_combinations` and `parallel_combinations`.
- `Coverage`: the tracker. Its operations are functions on a `CoverageState` value, and the class `CTAPICoverage` changes its two sets in place.
- `Prompts`: the templates and the API listing that taskgen.py and task.py share.
- `TaskGen`, `Task`, `CodeGen`: the three agents.
- `ProcessNumpyDoc`: the merge.
- `Config`: the settings.
- `Llm`: `Usage` and its text form.

## Behaviour worth knowing

The model keeps these behaviours of the code:

- **Sampling when nothing is left.** With nothing uncovered, `target_apis_names` is None and iterating it raises TypeError (coverage.py:79-81). `GenerateApiCombination` fails with TypeError exactly when nothing is uncovered. There is no "nothing left" result.
- **Reporting twice.** `covered.add` runs before `uncovered.remove` (coverage.py:91-93). A second report of the same member therefore raises KeyError, and the sets stay as the first report left them (`ReportTwice`). Reporting is not idempotent.
- **Coverage scale.** `calculate_coverage` returns a percentage in [0, 100], not a ratio in [0, 1], and 0.0 for an empty universe (coverage.py:86-88).
- **k <= 0.** `range(n - k + 1)` then reaches `elements[n]`, which raises IndexError (coverage.py:26-27). The `k <= 0` branch of `generate_combinations` is therefore never reached through `parallel_combinations`. When k is larger than the number of names, the universe is empty and nothing is raised.
- **Commented-out naive enumeration.** The naive `combinations(apis_names_list, n)` at coverage.py:40 would keep the input order inside each tuple. The code sorts first, so every combination is ascending. For distinct names, the universe is exactly the k-subsets of the names, each written in ascending order (`ParallelCombinationsSubsets`). That the naive unsorted form yields the same subsets is not proved.

## Model

| member | source | states |
|---|---|---|
| Strings.Strip | lcmeval/agents/taskgen.py:66 | defines `str.strip()`; the result has no whitespace at either end and is no longer than the input (`StripUnique`, `StripIdempotent`) |
| Strings.StripUnique | lcmeval/agents/taskgen.py:66 | `strip()` removes exactly a whitespace frame: whenever s is all-space lead + trimmed middle + all-space trail, the result is that middle |
| Strings.StripIdempotent | lcmeval/agents/taskgen.py:66-69 | stripping an already stripped text changes nothing |
| Strings.StripKeepsPattern | lcmeval/agents/codegen.py:41-43 | a trimmed, non-empty marker occurs in a text iff it occurs in the stripped text, so testing the raw content and cutting the stripped one agree |
| Strings.Contains | lcmeval/agents/taskgen.py:67 | defines `p in s` by `find`; it holds iff p occurs at some index of s |
| Strings.EndsWith | lcmeval/crawler/process_numpy_doc.py:14 | defines `s.endswith(suffix)`; it holds iff s is some text followed by the suffix |
| Strings.Partition | lcmeval/agents/taskgen.py:68 | `partition` returns three parts that concatenate to the input; when the separator occurs, the middle is the separator and the head holds no occurrence; otherwise the result is (s, "", "") |
| Strings.PartitionAfter | lcmeval/agents/taskgen.py:68 | for an unbordered separator, partitioning t + sep + rest with no sep in t gives back (t, sep, rest) |
| Strings.Split | lcmeval/agents/task.py:55 | `split` yields at least one piece, and exactly one iff the separator does not occur |
| Strings.JoinSplit | lcmeval/agents/task.py:55 | joining the pieces of a split with the same separator gives the text back |
| Strings.Join | lcmeval/crawler/process_numpy_doc.py:28 | defines `sep.join(xs)`; the first piece is a prefix of the result (`JoinSplit`, `SplitJoin`) |
| Strings.SplitJoin | lcmeval/crawler/process_numpy_doc.py:28 | splitting a join of one or more pieces that hold no separator gives the pieces back |
| Strings.SplitPiecesFree | lcmeval/agents/task.py:55 | no piece of a split contains the separator |
| Strings.SplitSecond | lcmeval/agents/task.py:55 | when the separator occurs, the second piece of the split is the head of partitioning what follows the first separator |
| Strings.Take | lcmeval/crawler/process_numpy_doc.py:22 | `s[:50]` is a prefix of s whose length is the smaller of 50 and the length of s |
| Strings.Format | lcmeval/agents/taskgen.py:58 | `format(api_details=…)` succeeds iff every field of the template has that name, and otherwise raises KeyError |
| Strings.FormatFills | lcmeval/agents/taskgen.py:58 | a successful format puts the value verbatim at every field |
| Strings.OneFieldTemplate | lcmeval/agents/codegen.py:33 | a template of text, one field and text formats to the text before, the value, and the text after |
| Combinations.LessTransitive | lcmeval/test_generation/coverage.py:23 | Python's order on `str` is transitive |
| Combinations.LessTotal | lcmeval/test_generation/coverage.py:23 | any two distinct strings are ordered one way or the other |
| Combinations.LessAsymmetric | lcmeval/test_generation/coverage.py:23 | no two strings are each below the other |
| Combinations.Sort | lcmeval/test_generation/coverage.py:23 | `sorted` returns a permutation of its input (same multiset) |
| Combinations.SortSorted | lcmeval/test_generation/coverage.py:23 | `sorted` returns a non-decreasing list |
| Combinations.SortedUnique | lcmeval/test_generation/coverage.py:23 | two sorted lists with the same multiset are equal, so the insertion sort is Python's `sorted` |
| Combinations.SortDistinct | lcmeval/test_generation/coverage.py:23 | on distinct names, `sorted` gives a strictly ascending list with the same length and the same members |
| Combinations.PrefixMembers | lcmeval/test_generation/coverage.py:19 | `(fixed,) + combo` for each combo yields exactly the non-empty tuples that start with `fixed` and continue with one of the combos |
| Combinations.Choose | lcmeval/test_generation/coverage.py:18 | defines `itertools.combinations(s, k)` in the library's order; every tuple has k entries (`ChooseCount`, `ChooseSubsets`, `ChooseMembers`, `ChooseNoDup` carry the rest) |
| Combinations.ChooseCount | lcmeval/test_generation/coverage.py:18 | `itertools.combinations(s, k)` yields C(len(s), k) tuples |
| Combinations.ChooseTooMany | lcmeval/test_generation/coverage.py:18 | it yields nothing when k exceeds len(s) |
| Combinations.ChooseSubsets | lcmeval/test_generation/coverage.py:18 | on an ascending list, a tuple is yielded iff it has k entries, is ascending, and takes every entry from the list |
| Combinations.ChooseMembers | lcmeval/test_generation/coverage.py:18 | on any list, every tuple yielded has k entries, each taken from the list |
| Combinations.ChooseNoDup | lcmeval/test_generation/coverage.py:18 | on an ascending list, no tuple is yielded twice |
| Combinations.GenerateCombinations | lcmeval/test_generation/coverage.py:13-19 | defines `generate_combinations`; every tuple it returns has k >= 1 entries and starts with the fixed element (`GenerateCombinationsSpec` carries the rest) |
| Combinations.GenerateCombinationsSpec | lcmeval/test_generation/coverage.py:13-19 | `generate_combinations` yields nothing for k <= 0 and the singleton for k == 1; for every k >= 1 it yields the fixed element followed by each (k-1)-combination of the rest, C(len(rest), k-1) of them |
| Combinations.ParallelCombinations | lcmeval/test_generation/coverage.py:21-34 | defines `parallel_combinations` with `pool.map` run in sequence; it raises, with IndexError, exactly when k <= 0 (the lemma rows below carry what the universe holds) |
| Combinations.TasksCoverChoose | lcmeval/test_generation/coverage.py:26-34 | fixing each of the first n-k+1 sorted names and uniting the results gives exactly the k-combinations of the sorted list |
| Combinations.ParallelCombinationsSpec | lcmeval/test_generation/coverage.py:21-34 | `parallel_combinations` raises IndexError for k <= 0, and otherwise returns the set of k-combinations of the sorted names |
| Combinations.ParallelCombinationsOrder | lcmeval/test_generation/coverage.py:23 | the universe does not depend on the order in which the names are given |
| Combinations.ParallelCombinationsTooMany | lcmeval/test_generation/coverage.py:24-34 | more names requested than exist gives the empty universe, not an error |
| Combinations.ParallelCombinationsSubsets | lcmeval/test_generation/coverage.py:21-34 | for distinct names and k >= 1, the universe is exactly the k-subsets written in ascending order, and it has C(n, k) members |
| Combinations.ParallelCombinationsMembers | lcmeval/test_generation/coverage.py:21-34 | every combination in the universe has k entries, each a given name, even when names repeat |
| Coverage.ReadCatalog | lcmeval/test_generation/coverage.py:54-60 | the loop computes `CatalogNames` and `CatalogDetails`: every name in order, duplicates included; the detail map has exactly those names as keys and holds the last row's details for each |
| Coverage.CatalogKeys | lcmeval/test_generation/coverage.py:55-56 | the details dict has a key exactly for each name in the names list |
| Coverage.CatalogLast | lcmeval/test_generation/coverage.py:56-60 | a name's entry holds the details of the last row with that name, since later rows overwrite earlier ones |
| Coverage.Initial | lcmeval/test_generation/coverage.py:42-43 | the fresh tracker has nothing covered and the whole universe uncovered, which splits it |
| Coverage.PercentageBounds | lcmeval/test_generation/coverage.py:88 | the percentage lies in [0, 100] and is 100 when everything is covered |
| Coverage.PercentageMonotone | lcmeval/test_generation/coverage.py:88 | more covered never gives a lower percentage |
| Coverage.CoverageBounds | lcmeval/test_generation/coverage.py:85-88 | while covered and uncovered split the universe, coverage lies in [0, 100], and it is 0.0 for an empty universe |
| Coverage.Report | lcmeval/test_generation/coverage.py:90-93 | defines one `update_coverage` call on the three sets: the universe is kept, covered only grows and uncovered only shrinks; a member of the universe ends up covered and not uncovered; KeyError is raised iff the combination is in the universe but no longer uncovered; anything outside the universe changes nothing (the lemma rows below carry the rest) |
| Coverage.ReportPreserves | lcmeval/test_generation/coverage.py:90-93 | a report keeps the universe and the split, never uncovers anything, and never lowers coverage |
| Coverage.ReportOutside | lcmeval/test_generation/coverage.py:91 | reporting a combination outside the universe changes nothing and raises nothing |
| Coverage.ReportMoves | lcmeval/test_generation/coverage.py:91-93 | reporting an uncovered combination moves exactly it from uncovered to covered |
| Coverage.ReportTwice | lcmeval/test_generation/coverage.py:92-93 | a second report of the same member raises KeyError and leaves the state as the first left it |
| Coverage.ReportAllExhausts | lcmeval/test_generation/coverage.py:85-93 | reporting every uncovered combination once, in any order, raises nothing, leaves nothing uncovered, and brings coverage to 100 (0.0 for an empty universe) |
| Coverage.CTAPICoverage.constructor | lcmeval/test_generation/coverage.py:37-43 | for n >= 1 the tracker stores the details and n, its universe is `parallel_combinations(names, n)`, nothing is covered and the split holds |
| Coverage.CTAPICoverage.Create | lcmeval/test_generation/coverage.py:37-43 | construction raises IndexError iff n <= 0; for n >= 1 it always succeeds with a fresh tracker in the initial state over `parallel_combinations(names, n)` |
| Coverage.CTAPICoverage.FromRows | lcmeval/test_generation/coverage.py:45-61 | a tracker built from catalogue rows raises IndexError iff n <= 0 and otherwise always succeeds; its universe is `parallel_combinations` over the rows' names, its detail map is the rows' details (last row per name), it starts in the initial state, and every name of every combination has an entry |
| Coverage.CTAPICoverage.GenerateApiCombination | lcmeval/test_generation/coverage.py:63-83 | it raises TypeError iff nothing is uncovered; otherwise it returns an uncovered combination with exactly its names mapped to their catalogue details, or raises KeyError only when some uncovered combination has a name missing from the catalogue |
| Coverage.CTAPICoverage.CalculateCoverage | lcmeval/test_generation/coverage.py:85-88 | the result is the covered percentage of the universe and lies in [0, 100] while the split holds |
| Coverage.CTAPICoverage.UpdateCoverage | lcmeval/test_generation/coverage.py:90-93 | the new sets and the outcome are those of one report; the split is kept and coverage never decreases |
| Coverage.ExampleUniverse | lcmeval/test_generation/coverage.py:21-34 | any three names a < b < c with n = 2 give the universe {(a,b), (a,c), (b,c)} |
| Coverage.ExampleReport | lcmeval/test_generation/coverage.py:85-93 | after reporting (A,B) in that universe, only (A,C) and (B,C) are uncovered and coverage is 100/3 |
| Coverage.ExampleSingle | lcmeval/test_generation/coverage.py:79-88 | one name with n = 2 gives an empty universe, coverage 0.0 and nothing uncovered, so sampling raises TypeError at once |
| Prompts.ApiBlock | lcmeval/agents/taskgen.py:55-57 | defines one API's f-string block; it starts with "- name:\n" and ends with a newline (`ApiInfosStrip`) |
| Prompts.ApiInfos | lcmeval/agents/taskgen.py:53-57 | the listing succeeds iff every name has an entry, and otherwise raises KeyError |
| Prompts.ApiInfosAppend | lcmeval/agents/taskgen.py:54-57 | the listing of a concatenation of names is the concatenation of their listings |
| Prompts.ApiInfosAt | lcmeval/agents/taskgen.py:54-57 | each name's block sits between the listing of the names before it and that of the names after it |
| Prompts.ApiInfosStrip | lcmeval/agents/taskgen.py:57-58 | a non-empty listing starts with '-' and ends with a newline, so `strip()` removes only a whitespace tail |
| TaskGen.TaskGenPrompt | lcmeval/agents/taskgen.py:52-58 | defines the prompt `build_prompt` returns; it succeeds iff every name has an entry and `api_details` is the template's only field, and otherwise raises KeyError (`DefaultPrompts`, `Task.PromptsDiffer`) |
| TaskGen.ReadReply | lcmeval/agents/taskgen.py:66-73 | the generated task is trimmed; reasoning is present iff the content holds the marker, and then it is trimmed and holds no marker; without the marker the result is the stripped content with no reasoning |
| TaskGen.ReadReplyThink | lcmeval/agents/taskgen.py:67-70 | reasoning + marker + answer is read as (stripped answer, stripped reasoning), whatever further markers the answer holds |
| TaskGen.DefaultPrompts | lcmeval/agents/taskgen.py:7-35 | with either shipped template, the prompt is the template text around the stripped listing |
| TaskGen.TaskGenAgent.constructor | lcmeval/agents/taskgen.py:47-50 | the agent keeps the given template and starts with an empty history |
| TaskGen.TaskGenAgent.BuildPrompt | lcmeval/agents/taskgen.py:52-58 | the loop computes the stripped listing formatted into the template; it raises KeyError exactly when a name has no entry or the template has another field |
| TaskGen.TaskGenAgent.GenerateTask | lcmeval/agents/taskgen.py:60-74 | a failing prompt gives KeyError and an empty or missing reply ValueError, both with the history unchanged; otherwise the generated task is returned and exactly one exchange, holding the stripped content, is appended |
| CodeGen.ExtractCode | lcmeval/agents/codegen.py:47 | the extracted code is trimmed, and it is empty when the reply has no opening tag |
| CodeGen.ExtractCodeBlock | lcmeval/agents/codegen.py:47 | the code is the stripped text of the first `<code>` … `</code>` block; text around it plays no part |
| CodeGen.ExtractCodeUnclosed | lcmeval/agents/codegen.py:47 | a block that is never closed runs to the end of the reply |
| CodeGen.ReadReply | lcmeval/agents/codegen.py:41-48 | the code is always extracted from the recorded response; reasoning is present iff the content holds the marker; without it the response is the stripped content |
| CodeGen.ReadReplyThink | lcmeval/agents/codegen.py:41-45 | for stripped content = reasoning + marker + answer, the response is the answer, unstripped, and the code comes from it alone |
| CodeGen.ReadReplyThinkThenCode | lcmeval/agents/codegen.py:42-44 | a code block inside the reasoning is ignored; the code is that of the first block after the marker |
| CodeGen.CodeGenAgent.constructor | lcmeval/agents/codegen.py:27-30 | the agent keeps the given template and starts with an empty history |
| CodeGen.CodeGenAgent.BuildPrompt | lcmeval/agents/codegen.py:32-33 | the prompt succeeds iff `task` is the template's only field, and raises KeyError otherwise; the shipped template frames the given task with its instructions |
| CodeGen.CodeGenAgent.GenerateCode | lcmeval/agents/codegen.py:35-49 | a failing prompt gives KeyError and an empty or missing reply ValueError, both with the history unchanged; otherwise the code is returned and exactly one exchange is appended |
| Task.TaskPrompt | lcmeval/agents/task.py:42-48 | defines the prompt `build_prompt` returns, listing unstripped; it succeeds iff every name has an entry and `api_details` is the template's only field, and otherwise raises KeyError (`PromptsDiffer`) |
| Task.PromptsDiffer | lcmeval/agents/task.py:42-48 | for a non-empty selection, the prompts of task.py and taskgen.py differ only in the whitespace tail of the listing, which task.py keeps |
| Task.ReadReply | lcmeval/agents/task.py:55 | the generated task is trimmed, and holds no marker when the content had one; without the marker it is the stripped content, so an empty reply gives "" |
| Task.ReadReplyThink | lcmeval/agents/task.py:55 | after reasoning and the marker, the generated task stops at the next marker |
| Task.AgreesWithTaskGen | lcmeval/agents/task.py:55 | with at most one marker, task.py and taskgen.py read the same task text |
| Task.TwoMarkers | lcmeval/agents/task.py:55 | with two markers, task.py returns the stripped middle piece, while taskgen.py returns everything after the first marker, second marker included |
| Task.TaskAgent.constructor | lcmeval/agents/task.py:38-40 | the agent keeps the given template |
| Task.TaskAgent.BuildPrompt | lcmeval/agents/task.py:42-48 | the loop computes the unstripped listing formatted into the template; it raises KeyError exactly when a name has no entry or the template has another field |
| Task.TaskAgent.GenerateTask | lcmeval/agents/task.py:50-56 | a failing prompt gives KeyError and a missing reply TypeError; otherwise the reply is read as task.py reads it, the empty reply included |
| ProcessNumpyDoc.Identifier | lcmeval/crawler/process_numpy_doc.py:22 | an identifier exists iff the member is an object record with a description |
| ProcessNumpyDoc.NewRow | lcmeval/crawler/process_numpy_doc.py:24-29 | a row is built iff the examples are missing or a list of strings; it keeps the name and the full description, and its identifier is the record's |
| ProcessNumpyDoc.Step | lcmeval/crawler/process_numpy_doc.py:22-30 | defines one pass of the inner loop body; it keeps the rows so far as a prefix, appends at most one row, never forgets a seen identifier, and never resumes an abandoned file (`FirstWins`, `ScanExtends`) |
| ProcessNumpyDoc.Scan | lcmeval/crawler/process_numpy_doc.py:19-30 | defines the loops over one file's items; the rows so far stay a prefix, at most one row per item is added, and an abandoned file stays abandoned (`ScanExtends`, `Abandon`, `ScanIdle`) |
| ProcessNumpyDoc.Processed | lcmeval/crawler/process_numpy_doc.py:10-32 | defines `unique_data` and `seen` after the files in order; `seen` only has entries for names ending in ".json" (`FreshFile`, `OnlyJson`) |
| ProcessNumpyDoc.ScanMembers | lcmeval/crawler/process_numpy_doc.py:20-30 | the inner loop computes the scan of one entry's members, stopping at the first exception |
| ProcessNumpyDoc.ScanFile | lcmeval/crawler/process_numpy_doc.py:17-32 | the loop over a file's entries computes the scan of all their members, abandoning the file at the first exception |
| ProcessNumpyDoc.ProcessRawFiles | lcmeval/crawler/process_numpy_doc.py:10-32 | the rows written are those of the whole run over the files in listing order |
| ProcessNumpyDoc.ScanIdle | lcmeval/crawler/process_numpy_doc.py:31-32 | once a file is abandoned, nothing more is added from it |
| ProcessNumpyDoc.Abandon | lcmeval/crawler/process_numpy_doc.py:17-32 | an exception at an item abandons the rest of the file, and the rows already appended stay |
| ProcessNumpyDoc.ScanExtends | lcmeval/crawler/process_numpy_doc.py:22-30 | a scan keeps the earlier rows; the rows it adds have pairwise distinct identifiers, none seen before; the seen set grows by exactly those identifiers |
| ProcessNumpyDoc.FirstWins | lcmeval/crawler/process_numpy_doc.py:23 | within a file, a later record with an identifier already taken adds nothing, whatever else it carries |
| ProcessNumpyDoc.IdentifierTruncates | lcmeval/crawler/process_numpy_doc.py:22 | two records of one name whose descriptions agree on their first 50 characters share an identifier |
| ProcessNumpyDoc.ExamplesRoundTrip | lcmeval/crawler/process_numpy_doc.py:27-28 | missing parameters become "[]" and missing examples ""; examples without newlines split back into the original lines |
| ProcessNumpyDoc.FreshFile | lcmeval/crawler/process_numpy_doc.py:10 | `seen` is per file: a file not read before contributes exactly the rows it yields alone, so identical records in different files are all kept |
| ProcessNumpyDoc.OnlyJson | lcmeval/crawler/process_numpy_doc.py:14 | dropping the files not ending in ".json" changes nothing |
| Config.Defaults | lcmeval/utils/config.py:18-24 | the defaults have exactly the five settings keys |
| Config.Merge | lcmeval/utils/config.py:28-30 | defines the merge loop; the key set is unchanged, and a value only changes to an override given for that key that is not None (`UpdatedOthers`, `MergeIgnoresUnknown`) |
| Config.NormalisePath | lcmeval/utils/config.py:31-32 | normalising a path succeeds iff the key is present with a string value; it raises KeyError if the key is missing and TypeError otherwise; success keeps the key set, puts the normalised path at that key and leaves every other key alone |
| Config.Updated | lcmeval/utils/config.py:27-32 | defines the whole update as a value; the key set is unchanged, an exception is KeyError or TypeError, and success needs both path keys present (`UpdatedPaths`, `UpdatedOthers`) |
| Config.UpdateConfig | lcmeval/utils/config.py:27-32 | the settings are updated in place to the merge followed by the two path normalisations, keeping the steps taken before an exception |
| Config.UpdatedKeys | lcmeval/utils/config.py:27-32 | the key set never changes, even when the update raises |
| Config.UpdatedOthers | lcmeval/utils/config.py:28-30 | each key other than the two paths holds its override when one that is not None was given, and keeps its value otherwise |
| Config.UpdatedPaths | lcmeval/utils/config.py:31-32 | the update succeeds iff both paths are strings after the merge, and then both are normalised, overridden or not |
| Config.MergeIgnoresUnknown | lcmeval/utils/config.py:29 | an override for a key the settings lack is ignored |
| Config.UpdateTwice | lcmeval/utils/config.py:27-32 | with an idempotent normalisation, a successful update applied twice equals the update applied once |
| Config.DefaultsUpdate | lcmeval/utils/config.py:18-32 | the defaults with no overrides update without error: both paths are normalised and the three limits stay |
| Llm.Add | lcmeval/utils/llm.py:59-63 | defines field-wise addition of the counters; adding the default counts on either side changes nothing (`AddMonoid`, `Usage.AddAssign`) |
| Llm.AddMonoid | lcmeval/utils/llm.py:59-63 | adding counts is commutative and associative with the defaults as unit, so usages add up in any order |
| Llm.Usage.constructor | lcmeval/utils/llm.py:53-57 | the three counters start at the given values, 0 by default |
| Llm.Usage.Of | lcmeval/utils/llm.py:65-71 | `Usage.of` copies the three counts into a fresh object |
| Llm.Usage.AddAssign | lcmeval/utils/llm.py:59-63 | `+=` adds the other's old counts field by field, returns self, and leaves a distinct other alone (`u += u` doubles) |
| Llm.IntToStringRoundTrip | lcmeval/utils/llm.py:73-74 | each counter printed by `__str__` reads back as the counter, negative values included |

## Left out

- File and network I/O: listing and reading the raw JSON files, JSON parsing, reading and writing CSV, `print`, `dump_config`, `dump_completion`. Each file is given as already parsed (or unparsable), and the rows are returned instead of written. A failing `open()` sits outside the `try` and would end the whole run; it is not modelled.
- The language model client (`LLM`, `load_dotenv`, `query`) and the environment variables. The reply content is a parameter of each agent operation, None when the model gave none.
- The `SYSTEM_PROMPT` constants. They are only handed to the model client.
- `multiprocessing.Pool` and `os.cpu_count`. `pool.map` is a sequential map, which gives the same result because the jobs are independent and the results are united into a set.
- `random.choice`. The sampled combination is an arbitrary uncovered one, with no claim about its distribution.
- Coverage.CTAPICoverage.CalculateCoverage: computed over the reals, not IEEE doubles, so rounding (100/3 as a double, say) is not modelled.
- `pathlib.Path(...).expanduser().resolve().as_posix()`. It depends on the file system and becomes the function parameter `normalise`. Its RuntimeError for an unknown home directory is not modelled.
- `str()` of a parameters value becomes the function parameter `repr`. An `examples` member that is a string (which `join` splits into characters) is given as the list of its characters.
- `str.format` templates are given as parsed sequences of text and fields. Escaped braces and format specifications are not modelled.
- Strings.Format: template fields are plain keyword names. Positional fields (`{}`, `{0}`) raise IndexError in Python, not the KeyError the model gives. Attribute and index fields of the keyword (`{api_details[0]}`, `{api_details.upper}`) are resolved against the value in Python, where the model raises KeyError. Neither kind is modelled. The same holds for TaskGen.TaskGenPrompt, Task.TaskPrompt and the three agents' `BuildPrompt`, which format through it.
- `process_raw_files` records every exception as one abandoned file. Which exception it was (KeyError, TypeError, AttributeError) is not kept, since the code catches them all alike. A description that is not a string is not modelled.
- ProcessNumpyDoc.ScanFile: the two nested loops of the source are two methods, the inner loop being `ScanMembers`.
- Combinations of unhashable values (lists) passed to `update_coverage`, which Python rejects. Combinations are sequences.
- `Usage.__str__` is modelled by `Usage.ToString` without a contract of its own. What is proved is that each printed counter reads back (`IntToStringRoundTrip`).
- The crawler (numpy_doc_crawler.py), probgen.py, log.py, utils.py, `helper.timestamp` and the `__main__` blocks are not part of this model.
