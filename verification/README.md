# Prompt-engineering decision procedures in Dafny

The repository teaches prompt-engineering techniques. Most of its code builds
prompts and calls a language model. Around those calls sit small, pure decision
procedures, and this project models and verifies them:

- the sequential prompt-chain executor, with retries, back-off and validators,
  and the result aggregation of the parallel executor;
- the task-dependency manager, with a depth-first topological sort and cycle
  detection;
- the format and content-constraint validators;
- majority and similarity voting, and the consistency ratios;
- the cost tracker;
- the keyword and pattern scorers of the technique scripts: security (21),
  multilingual detection (19), ethics (20), task domains (18), negative
  constraints (16), evaluation and ranking (22), formatting (17), ambiguity (14),
  instruction clarity and validation (12), prompt optimisation (13) and length
  management (15).

The model is functional. Entities are immutable datatypes. Python dicts are
insertion-ordered maps (`OrderedMap`). Scores are exact `real`s. Every call the
code cannot see becomes a function-valued parameter:

- the language model (`Oracles.Llm`, `Chain.Generator`);
- a regular-expression search (`Oracles.Matcher`);
- `json.loads` and the XML parser;
- `extract_final_answer`;
- the validator callables of a chain step. A step holds validator handles, and `Chain.Judge` says what each validator does with an output: it accepts, answers falsy, or raises with a message.

The decision logic on top of these is what is proved. `Text` models Python's
string primitives: `lower()` (ASCII), `split()`, `split(sep)`, `strip()`, `in`
and `count`. `Numeric` holds shared arithmetic helpers. `Selection` states that a result lists,
in order and once each, exactly the elements of a sequence that satisfy a test,
which is what the source's list comprehensions and filtering loops produce.

## Model

| member | source | states |
|---|---|---|
| Chain.RunValidators | shared_utils/prompt_chaining_utils.py:131-137 | The `validators` dict passes iff every validator accepts. Then there is one passed record per validator. Otherwise the first validator that does not accept decides the error. A falsy answer gives the "failed <name> validation" message, and a raised exception gives its own message. |
| Chain.Validate | shared_utils/prompt_chaining_utils.py:130-142 | A `validators` entry takes precedence over a single `validator`. A lone validator records "default" if it accepts. It fails with "Step i validation failed" if it answers falsy, or with the message of the exception it raises. With neither, the attempt passes with no records. |
| Chain.RaisingValidatorFailsAttempt | shared_utils/prompt_chaining_utils.py:131-166 | If a dict validator raises after the earlier ones accepted, the attempt fails with the exception's message, as the `except` clause records `str(e)`. |
| Chain.RaisingDefaultFailsAttempt | shared_utils/prompt_chaining_utils.py:138-166 | A single validator that raises fails the attempt with the exception's message. |
| Chain.RunStep | shared_utils/prompt_chaining_utils.py:104-197 | A step completes at the first successful attempt, with at most `max_retries` failures before it. Otherwise all `max_retries + 1` attempts failed and the last error is kept. |
| Chain.StepWaits | shared_utils/prompt_chaining_utils.py:194-197 | The sleep after the k-th failed attempt is `0.5 * 2^(k-1)` seconds. |
| Chain.AttemptLog | shared_utils/prompt_chaining_utils.py:110-117 | Each attempt adds one history entry, with the 1-based step, the step's input and the attempt number. |
| Chain.RunFromThreaded | shared_utils/prompt_chaining_utils.py:96-159 | Completed steps are numbered 1, 2, … in order. Step 1 is fed the initial input and every later step the previous output. Each recorded retry count is the number of failed attempts, within the budget. |
| Chain.RunFromSucceeds | shared_utils/prompt_chaining_utils.py:199-219 | A successful run has one result per step. Its final output is the last step's output, or the initial input when there are no steps. |
| Chain.RunFromFails | shared_utils/prompt_chaining_utils.py:165-192 | A failed run keeps exactly the earlier completed steps as partial results. The next step used up all `max_retries + 1` attempts. The error names that step, the attempt count and the last error. |
| Chain.RunFromCounts | shared_utils/prompt_chaining_utils.py:107-197 | The history gains one entry per attempt. A sleep follows every failed attempt except a step's last allowed one. |
| Chain.RecordedValidationsPassed | shared_utils/prompt_chaining_utils.py:131-156 | Every validation result stored with a completed step has `passed` true. |
| Chain.ExecuteSequentialChain | shared_utils/prompt_chaining_utils.py:83-219 | The manager's history and step timings only grow: each run appends its attempts, one timing per completed step, and one log entry. |
| Chain.ExampleThreeSteps | shared_utils/prompt_chaining_utils.py:83-219 | A three-step chain whose model appends "!" yields "x!", "x!!" and "x!!!", with three history entries. |
| Chain.ExampleValidatorExhausted | shared_utils/prompt_chaining_utils.py:165-197 | A validator that always rejects, with `max_retries` 2, fails after three attempts. The sleeps are 0.5 s and 1 s, and the error is the documented message. |
| Chain.ValidateSummaryLength | shared_utils/prompt_chaining_utils.py:465-467 | Holds iff the whitespace word count is at most `max_words`. |
| Chain.ValidateBulletFormat | shared_utils/prompt_chaining_utils.py:478-481 | Holds iff some line of the text, once stripped, starts with •, -, *, 1., 2. or 3. Stripping the whole text first changes nothing. |
| Chain.BulletJoin | shared_utils/prompt_chaining_utils.py:478-481 | Two texts joined by a newline pass iff either passes on its own. |
| Chain.BulletNeedsMarker | shared_utils/prompt_chaining_utils.py:478-481 | A text containing none of the six markers never passes. |
| Chain.RunChain | shared_utils/prompt_chaining_utils.py:62-70 | The retry budget is any integer. With a negative one the attempt loop of every step is skipped, so the run succeeds with no results, no history, no sleeps and the initial input as its output. |
| ParallelChain.RunSingle | shared_utils/prompt_chaining_utils.py:236-275 | A task report keeps the task's name and is a success iff the model call returned. |
| ParallelChain.ResultsDictSpec | shared_utils/prompt_chaining_utils.py:287 | With distinct names, the results dict has the task names as keys, in order, each mapped to its result. |
| ParallelChain.Successes | shared_utils/prompt_chaining_utils.py:288 | A report is kept iff it is in the task list and succeeded. The result is all the tasks iff every task succeeded. Order and count are stated by ParallelChain.SuccessesInOrder. |
| ParallelChain.SuccessesInOrder | shared_utils/prompt_chaining_utils.py:288 | The successful reports in task order, once each, so the synthesis input lists them in that order. |
| ParallelChain.ParallelFailsOnlyWhenEmpty | shared_utils/prompt_chaining_utils.py:278-279 | The parallel executor fails iff there are no templates (zero workers). |
| ParallelChain.ParallelResults | shared_utils/prompt_chaining_utils.py:269-287 | There is one detail per template, in dict order, a success iff its call returned. Results are keyed like the templates and hold the output or "Error: " plus the message. |
| ParallelChain.ParallelCounts | shared_utils/prompt_chaining_utils.py:288-326 | Successes plus failures equal the number of templates. There are no failures iff every call returned, and no successes iff every call raised. |
| ParallelChain.ParallelSynthesis | shared_utils/prompt_chaining_utils.py:278-317 | Synthesis runs iff a non-empty template is given and some task succeeded. A raising synthesis gives "Synthesis failed: " plus the message. Workers are min(tasks, 4). |
| Tasks.AddTask | shared_utils/task_decomposer.py:45-66 | Stores a new pending task under its id. An existing id keeps its position and is replaced. Every other task is unchanged. |
| Tasks.ReadyTasks | shared_utils/task_decomposer.py:68-90 | Exactly the pending tasks whose dependencies all exist and are completed. They come in insertion order, each once. |
| Tasks.UnknownDependencyBlocks | shared_utils/task_decomposer.py:78-86 | A task naming an absent dependency is never ready. |
| Tasks.MarkCompleted | shared_utils/task_decomposer.py:92-96 | Sets only the named task's status and result. It is a no-op for an unknown id. |
| Tasks.MarkFailed | shared_utils/task_decomposer.py:98-102 | Sets only the named task's status and error. It is a no-op for an unknown id. |
| Tasks.MarkInProgress | shared_utils/task_decomposer.py:104-107 | Sets only the named task's status. It is a no-op for an unknown id. |
| Tasks.VisitSpec | shared_utils/task_decomposer.py:122-138 | A successful DFS visit extends the order, keeps it topological and finishes the task. A failing one reports a task on a dependency cycle. |
| Tasks.ExecutionOrderSorts | shared_utils/task_decomposer.py:109-146 | A computed order lists every task exactly once. Every existing dependency comes before its dependent. |
| Tasks.ExecutionOrderFailsIffCycle | shared_utils/task_decomposer.py:122-146 | The sort raises iff the existing tasks have a dependency cycle. The message names a task on such a cycle. |
| Tasks.NoCycleUnderOrder | shared_utils/task_decomposer.py:109-146 | A topological order of all tasks rules out any cycle. This is the converse half of the cycle detection. |
| Tasks.Summarize | shared_utils/task_decomposer.py:148-172 | Each of the five status counts is the number of tasks holding that status, and together they sum to the number of tasks. `completion_rate` is completed/total, or 0 with no tasks, and lies in [0, 1]. The completed, failed and ready lists hold one entry per such task, in insertion order, with the id, the title and, for failed tasks, the error. |
| Tasks.WithStatusInOrder | shared_utils/task_decomposer.py:162-163 | The tasks with a given status are selected in insertion order, once each, and the status count is the number of them. |
| Tasks.BriefsInOrder | shared_utils/task_decomposer.py:169-171 | Turning an in-order selection of tasks into summary entries keeps one entry per selected task, in order. |
| Tasks.StatusCountsSum | shared_utils/task_decomposer.py:157-163 | The five per-status counts sum to the number of tasks. |
| Tasks.ValidateDependencies | shared_utils/task_decomposer.py:174-197 | One missing-dependency message per (task, dependency) pair naming an absent task, in task then dependency order. The cycle message comes last iff the sort fails. `is_valid` iff there are no issues. A computed order is stored, as the source does. |
| Tasks.ValidIffNoMissingNoCycle | shared_utils/task_decomposer.py:174-197 | Valid iff every dependency names an existing task and there is no cycle. |
| Tasks.OrderedByInsertion | shared_utils/task_decomposer.py:109-146 | When every dependency was inserted earlier, the execution order is the insertion order. |
| Tasks.SimpleDecompositionOrder | shared_utils/task_decomposer.py:200-221 | The tasks are task_1..task_n. Each task_k depends on task_(k-1) alone, and the order is task_1..task_n. |
| Tasks.ParallelDecompositionShape | shared_utils/task_decomposer.py:224-251 | Parallel tasks have no dependencies. A non-empty final task comes last and depends on all of them. The order is the insertion order. |
| Tasks.EstimatedSubtasksMonotone | shared_utils/task_decomposer.py:295 | The subtask estimate never decreases with more words. It is 2 under 60 words and 8 from 160. |
| Tasks.AnalyzeTaskComplexity | shared_utils/task_decomposer.py:254-307 | Complexity is the first of high/medium/low with an indicator present, else low. Each flag holds iff one of its indicators occurs in the lowered text. The kind is parallel iff only the parallel flag holds, and so on for the others. The estimate is the word-count formula, in [2, 8]. |
| Tasks.ComplexityGrowsWithText | shared_utils/task_decomposer.py:254-307 | Appending text never loses an indicator: each flag stays set, high stays high, and a low rating of the longer text was already low. |
| Constraints.KeywordCheck | shared_utils/constraint_validator.py:212-219 | One violation iff some required keyword is missing, case-insensitively. It lists exactly the missing ones; their order and repeats are stated by Constraints.MissingInOrder. |
| Constraints.MissingInOrder | shared_utils/constraint_validator.py:215-216 | The missing list holds every required keyword absent from the lowered text, once per entry, duplicates kept, in the list's order. |
| Constraints.ForbiddenCheck | shared_utils/constraint_validator.py:221-228 | One violation iff some forbidden word occurs, case-insensitively. It lists exactly the ones found; their order and repeats are stated by Constraints.FoundInOrder. |
| Constraints.FoundInOrder | shared_utils/constraint_validator.py:224-225 | The found list holds every forbidden word present in the lowered text, once per entry, duplicates kept, in the list's order. |
| Constraints.RunCheck | shared_utils/constraint_validator.py:201-235 | Each check reports at most one violation, of its own kind, iff the text breaks it. |
| Constraints.ViolationKinds | shared_utils/constraint_validator.py:196-237 | A violation of a kind is reported iff the text breaks that check. |
| Constraints.NoConstraintsNoViolations | shared_utils/constraint_validator.py:196-237 | Absent keys impose nothing: with an empty constraints dict every text is valid. |
| Constraints.ValidateContentConstraints | shared_utils/constraint_validator.py:180-237 | One message per violated check. Each message is the text of its violation, in the order the checks run, and the report is valid iff there is none. A word list appears in a message as Python's `str` of the list (Repr.ListRepr). |
| Constraints.ApostropheKeywordMessage | shared_utils/constraint_validator.py:218 | A missing keyword `don't` is reported as `Missing required keywords: ["don't"]`: Python switches to double quotes for it. |
| Repr.ReprRoundTrip | shared_utils/constraint_validator.py:218 | A keyword can be read back from its `repr` inside the message: nothing is lost by escaping. |
| Repr.PlainRepr | shared_utils/constraint_validator.py:227 | A word without quotes, backslashes or unprintable characters is shown as itself between single quotes. |
| Repr.ListReprSingle | shared_utils/constraint_validator.py:227 | A one-word list is shown as that word's `repr` in brackets. |
| Repr.SingleQuoteShownInDoubleQuotes | shared_utils/constraint_validator.py:218 | `don't` is shown as `"don't"`. |
| Repr.ApostropheListRepr | shared_utils/constraint_validator.py:218 | The list of `don't` is shown as `["don't"]`. |
| Repr.BothQuotesEscapeSingle | shared_utils/constraint_validator.py:227 | A word with both quotes keeps single quotes and escapes the single quote inside. |
| Constraints.ContentViolations | shared_utils/constraint_validator.py:196-237 | At most one violation per check, with their kinds strictly ascending in check order. |
| Constraints.ContentValidIff | shared_utils/constraint_validator.py:196-237 | Valid iff: the length is within the given bounds; every required keyword occurs; no forbidden word occurs; the non-blank '.'-pieces are within `max_sentences`. |
| Constraints.ValidateList | shared_utils/constraint_validator.py:116-142 | Valid iff some line matches the marker pattern. The valid count is the number of matching lines, and compliance = valid / max(non-blank lines, 1), in [0, 1]. |
| Constraints.ListComplianceFull | shared_utils/constraint_validator.py:116-142 | Compliance is 1 iff there is a non-blank line and every non-blank line matches the marker pattern. |
| Constraints.CountWherePositive | shared_utils/constraint_validator.py:121-124 | The matching-line count is positive iff some line matches. |
| Constraints.ValidateTable | shared_utils/constraint_validator.py:144-168 | No content and no pipe rows give their errors. Otherwise the table is valid iff all pipe rows have the same column count. |
| Constraints.TableValidIff | shared_utils/constraint_validator.py:144-168 | Valid iff there is a pipe row and every pipe row has as many pipes as the first. |
| Constraints.ValidateJson | shared_utils/constraint_validator.py:18-55 | Unparsable text is invalid with no missing fields. A parsed object is valid iff it has every required field. A non-object value is valid. |
| Constraints.ValidateStructuredFormat | shared_utils/constraint_validator.py:90-114 | Dispatches the four supported types. Any other type is the unsupported-type error listing the supported ones. |
| Constraints.UnsupportedNeverValid | shared_utils/constraint_validator.py:108-112 | An unsupported type is invalid through both entry points. |
| Constraints.ValidateOutputFormat | shared_utils/constraint_validator.py:240-262 | JSON gives exactly the `validate_json` report, the two list types a list report, `table` a table report or one of its two errors, and `xml` an XML report. Anything else is the unsupported-type error. |
| Constraints.StructuredDispatch | shared_utils/constraint_validator.py:240-262 | For the four structured types the report is exactly the structured validator's. |
| Constraints.FormatPromptSuffixParts | shared_utils/constraint_validator.py:265-293 | The suffix is the table sentence (or "Format your response as t."), then the fields sentence only for JSON, then the length sentence for any type. |
| Voting.SimpleMajorityVote | shared_utils/voting_utils.py:13-40 | No responses gives the empty result. Otherwise the winner has maximal count, and every response seen earlier has a strictly smaller count. Confidence is count/n in (0, 1]. |
| Voting.MajorityCounts | shared_utils/voting_utils.py:27-37 | The counts list each distinct response once, in first-seen order, and sum to n. |
| Voting.FirstSeenOrder | shared_utils/voting_utils.py:27-28 | Distinct responses are listed in order of first occurrence. |
| Voting.SimilarProperties | shared_utils/voting_utils.py:134-167 | The similarity test is symmetric and false for an empty argument. It is true for equal normalised non-empty answers. |
| Voting.SimilarByContainment | shared_utils/voting_utils.py:150-153 | Two normalised answers longer than 5 characters, one containing the other, are similar. |
| Voting.GroupStep | shared_utils/voting_utils.py:101-111 | The corrected step. An answer joins the first similar group in creation order. Otherwise it joins the group under its own key, creating it if needed. Lines 110-111 instead replace an existing group under that key (see "## Findings"). |
| Voting.GroupsPartition | shared_utils/voting_utils.py:100-114 | The groups partition the indices 0..n-1: every index lies in exactly one group, once. |
| Voting.GroupSizesSum | shared_utils/voting_utils.py:114 | The vote counts sum to the number of answers. |
| Voting.LargestGroup | shared_utils/voting_utils.py:120 | The winner is the first-created key of maximal size. |
| Voting.SemanticSimilarityVote | shared_utils/voting_utils.py:82-131 | Votes over the corrected grouping. No responses gives the empty result. Otherwise the winner is the first largest group and confidence is its share, in (0, 1]. |
| Voting.SemanticSimilarityVoteAsWritten | shared_utils/voting_utils.py:82-131 | The vote as written, over the grouping in which a repeated unmatched answer replaces its group. The winner is the first largest group, and confidence is its size over the number of responses. |
| Voting.EmptyAnswersHalveConfidence | shared_utils/voting_utils.py:104-122 | Two responses whose extracted answers are both empty. As written, the winner "" has count 1 and confidence 0.5. Corrected, it has count 2 and confidence 1. |
| Voting.GroupShare | shared_utils/voting_utils.py:114-122 | Every group has between 1 and n members. |
| Voting.EmptyAnswersOverwrite | shared_utils/voting_utils.py:110-111 | As written, two empty answers leave one group holding only index 1. The counts sum to 1, not 2. |
| Voting.EmptyAnswersKept | shared_utils/voting_utils.py:100-114 | Corrected, the same input keeps both indices in one group. |
| Voting.AnalyzeConsistency | shared_utils/voting_utils.py:170-201 | Fewer than 2 responses give 1.0. Otherwise unique is the number of distinct answers, 1 ≤ unique ≤ n, the score is 1 − (unique−1)/n in [1/n, 1] and is 1 iff all answers agree, and agreement is the top count over n, in (0, 1]. |
| Voting.ConsistencyPerfectIff | shared_utils/voting_utils.py:188-190 | A score of 1 and an agreement of 1 each hold iff all answers are equal. |
| Cost.BilledModel | shared_utils/cost_tracker.py:70-72 | An unknown model is billed and recorded as gpt-4o-mini. A known one keeps its name. |
| Cost.Record | shared_utils/cost_tracker.py:74-88 | The total is input cost plus output cost. Every cost is non-negative for non-negative token counts. |
| Cost.RequestCost | shared_utils/cost_tracker.py:33-37 | Cost × 10^6 = in·p_in + out·p_out at the billed model's prices. |
| Cost.UnknownModelBilledAsDefault | shared_utils/cost_tracker.py:70-72 | An unknown model gives exactly the record of gpt-4o-mini. |
| Cost.TrackUsage | shared_utils/cost_tracker.py:51-98 | Appends exactly one record, adds its cost to the total, and returns that cost. |
| Cost.SessionSummary | shared_utils/cost_tracker.py:100-121 | No records give 0 requests, 0.0 cost and 0 tokens. Otherwise requests = records and tokens = input sum + output sum. The techniques are the set of techniques used. |
| Cost.SummaryAfterRequests | shared_utils/cost_tracker.py:90-91 | After any requests the summary counts them all. The total cost is the sum of the record costs, never negative. |
| Security.Matched | 07_Advanced_Applications/21_prompt_security_safety.py:119-125 | A pattern is detected iff it is in the table and matches the text. There are never more entries than patterns. Order and multiplicity are stated by Security.MatchedInOrder. |
| Security.MatchedInOrder | 07_Advanced_Applications/21_prompt_security_safety.py:119-125 | The matched patterns are exactly those of the table that match, in table order, each once. |
| Security.ScanGroupOnce | 07_Advanced_Applications/21_prompt_security_safety.py:119-132 | A group with any number of matches escalates the level exactly once. |
| Security.DetectedIsFilter | 07_Advanced_Applications/21_prompt_security_safety.py:119-125 | `detected_patterns` is the flattened table filtered by matching. |
| Security.ScanLevelCases | 07_Advanced_Applications/21_prompt_security_safety.py:120-132 | After the scan: critical if a data-extraction pattern matched, else high for injection or jailbreak, else medium for a prompt leak or role manipulation, else low. |
| Security.KeywordLevel | 07_Advanced_Applications/21_prompt_security_safety.py:135-141 | More than 3 keywords force high, even over critical. More than 1 lifts low to medium. Otherwise the level is kept. |
| Security.MitigationByLevel | 07_Advanced_Applications/21_prompt_security_safety.py:158-167 | The advice depends only on the level, and differs between levels. |
| Security.Analyze | 07_Advanced_Applications/21_prompt_security_safety.py:113-156 | The detected patterns, the level, confidence = min(1, (patterns + keywords)/5) in [0, 1], and a bypass type iff nothing matched. |
| Security.PrimaryIsFirstHit | 07_Advanced_Applications/21_prompt_security_safety.py:126-129 | The primary threat is the type of the first group with a match. |
| Security.PrimaryIsBypassIffNone | 07_Advanced_Applications/21_prompt_security_safety.py:144 | The type is BYPASS_ATTEMPT iff no pattern matched. |
| Security.ProcessWithSecurity | 07_Advanced_Applications/21_prompt_security_safety.py:202-245 | Blocked iff high, critical or confidence > 0.7. A blocked request gets the fixed refusal. Otherwise the model answers and a threat is reported iff confidence > 0.3. |
| Security.BlockedIgnoresModel | 07_Advanced_Applications/21_prompt_security_safety.py:208-224 | A blocked request never reaches the model: the result is the same whatever the model would say. |
| Security.ManyKeywordsBlock | 07_Advanced_Applications/21_prompt_security_safety.py:135-137 | Four or more safety keywords always block. |
| Security.BlockedIff | 07_Advanced_Applications/21_prompt_security_safety.py:113-224 | Blocked iff a data-extraction, injection or jailbreak pattern matches, more than 3 keywords occur, or patterns + keywords exceed 3. |
| Multilingual.Choose | 07_Advanced_Applications/19_multilingual_prompting.py:99-123 | With all scores 0, the script fallback with confidence 0. Otherwise the first language of maximal score, with confidence min(1, score/5). |
| Multilingual.DetectLanguage | 07_Advanced_Applications/19_multilingual_prompting.py:97-132 | The chosen language, with its script and cultural context looked up in the tables. |
| Multilingual.FallbackHasNoConfidence | 07_Advanced_Applications/19_multilingual_prompting.py:106-123 | With no keyword present, the fallback language is returned with confidence 0. |
| Multilingual.DetectedIsTabled | 07_Advanced_Applications/19_multilingual_prompting.py:106-121 | Every detectable language, by keywords or fallback, is in the indicator table. |
| Multilingual.DetectionUsesTables | 07_Advanced_Applications/19_multilingual_prompting.py:75-95 | Every detected language has its own entry in the script and culture tables, never a default. |
| Multilingual.Adaptations | 07_Advanced_Applications/19_multilingual_prompting.py:182-190 | The adaptations of every group containing the language, in group order. An unknown language gets the single default. |
| Multilingual.HindiAdaptations | 07_Advanced_Applications/19_multilingual_prompting.py:138-190 | Hindi gets the collectivist then the high-context adaptations. |
| Multilingual.UngroupedAdaptations | 07_Advanced_Applications/19_multilingual_prompting.py:190 | A language in no group gets the default alone. |
| Multilingual.Jaccard | 07_Advanced_Applications/19_multilingual_prompting.py:476-482 | Lies in [0, 1]. It is 0 when either set is empty, 1 iff the sets are equal and non-empty, and positive iff they intersect. |
| Multilingual.WordOverlap | 07_Advanced_Applications/19_multilingual_prompting.py:472-482 | The Jaccard index of the lowercase whitespace word sets. |
| Multilingual.WordOverlapSymmetric | 07_Advanced_Applications/19_multilingual_prompting.py:472-482 | The overlap is symmetric, and a non-empty text overlaps itself fully. |
| Ethics.EvidencePerHit | 07_Advanced_Applications/20_ethical_considerations.py:115-120 | One evidence line per phrase present. |
| Ethics.ResultFor | 07_Advanced_Applications/20_ethical_considerations.py:122-133 | A detected result with confidence min(1, hits/3), positive with any hit, and the type's mitigation. |
| Ethics.AnalyzeBias | 07_Advanced_Applications/20_ethical_considerations.py:110-136 | One well-formed result per tabled type with a hit, in table order, with its evidence. |
| Ethics.UntabledNeverReported | 07_Advanced_Applications/20_ethical_considerations.py:82-108 | Religious, ability and appearance bias are never reported. |
| Ethics.RepresentationScore | 07_Advanced_Applications/20_ethical_considerations.py:198-202 | The value is min(1, 2n/3) for n of the three terms present: 2/3 for one, 1 iff two or more, and 0 iff none. |
| Ethics.RepresentationGrows | 07_Advanced_Applications/20_ethical_considerations.py:198-202 | Joining more text on either side never lowers the representation score. |
| Ethics.LanguageScore | 07_Advanced_Applications/20_ethical_considerations.py:204-212 | The value is 0.5, plus the share of inclusive terms present, minus 0.2 per exclusionary pattern present, clamped to [0, 1]. It is at least 0.5 without exclusionary patterns and at most 0.5 without inclusive terms. |
| Ethics.LanguageScoreOrder | 07_Advanced_Applications/20_ethical_considerations.py:204-212 | A text scores at least as high as another if it has every inclusive term the other has and no exclusionary pattern the other lacks. |
| Ethics.AccessibilityScore | 07_Advanced_Applications/20_ethical_considerations.py:214-218 | The value is min(1, n/2) for n of the four terms present: n/2 up to two, 1 iff two or more, and 0 iff none. |
| Ethics.AccessibilityGrows | 07_Advanced_Applications/20_ethical_considerations.py:214-218 | Joining more text on either side never lowers the accessibility score. |
| Ethics.CulturalScore | 07_Advanced_Applications/20_ethical_considerations.py:220-229 | The value is 0.5, plus the share of awareness terms present, minus the share of western-centric terms present, clamped to [0, 1]. It is at least 0.5 without western-centric terms and at most 0.5 without awareness terms. |
| Ethics.CulturalScoreOrder | 07_Advanced_Applications/20_ethical_considerations.py:220-229 | A text scores at least as high as another if it has every awareness term the other has and no western-centric term the other lacks. |
| Ethics.HarmRisk | 07_Advanced_Applications/20_ethical_considerations.py:231-239 | The value is min(1, hits/5): hits/5 for up to five indicators present, and 1 from five on. It is 0 iff no indicator is present. |
| Ethics.HarmRiskGrows | 07_Advanced_Applications/20_ethical_considerations.py:231-239 | Joining more text on either side never lowers the harm risk. |
| Ethics.AssessInclusivity | 07_Advanced_Applications/20_ethical_considerations.py:167-196 | Each sub-score is its scorer applied to the lowered text. The overall score is the mean of the four and 1 − harm risk, so it lies in [0, 1]. |
| Ethics.InclusivityPerfect | 07_Advanced_Applications/20_ethical_considerations.py:167-196 | The overall score is 1 iff two or more representation terms and two or more accessibility terms occur, language and culture score 1, and no harm indicator occurs. |
| Ethics.AssessHarmPotential | 07_Advanced_Applications/20_ethical_considerations.py:492-511 | 0 with no risk categories, else min(1, hits/(3·#risks)). Lies in [0, 1], and is 0 iff there are no hits. |
| Ethics.UntabledHarmIsZero | 07_Advanced_Applications/20_ethical_considerations.py:495-505 | Categories without indicators never add harm. |
| Ethics.EvaluateCulturalSensitivity | 07_Advanced_Applications/20_ethical_considerations.py:513-533 | The value is 0.5, plus the share of the six sensitive indicators present, minus the share of the eight insensitive ones, clamped to [0, 1]. It is at least 0.5 without insensitive indicators and at most 0.5 without sensitive ones. |
| Ethics.CulturalSensitivityExtremes | 07_Advanced_Applications/20_ethical_considerations.py:513-533 | No indicators give 0.5. Every sensitive and no insensitive indicator gives 1. |
| Ethics.CulturalSensitivityOrder | 07_Advanced_Applications/20_ethical_considerations.py:513-533 | A text scores at least as high as another if it has every sensitive indicator the other has and no insensitive one the other lacks. |
| TaskDomains.ClassifyTask | 06_Specialized_Applications/18_task_specific_prompts.py:67-76 | A domain with maximal hits, and every earlier domain has strictly fewer. |
| TaskDomains.NoKeywordsIsSummarization | 06_Specialized_Applications/18_task_specific_prompts.py:67-76 | With no keyword present, the domain is text summarization. |
| TaskDomains.StrictWinnerClassified | 06_Specialized_Applications/18_task_specific_prompts.py:67-76 | A domain with strictly the most hits is chosen. |
| TaskDomains.OptimizationStrategy | 06_Specialized_Applications/18_task_specific_prompts.py:78-112 | Exactly the two unconfigured domains get the default. All strategies have max_tokens in [200, 500] and temperature in (0, 1). |
| TaskDomains.SummaryRelevance | 06_Specialized_Applications/18_task_specific_prompts.py:471-476 | min(1, 3k/n), for n distinct input words of which k occur in the response. It is 1 iff 3k ≥ n, and 0 iff no input word occurs. |
| TaskDomains.SummaryRelevanceMonotone | 06_Specialized_Applications/18_task_specific_prompts.py:471-476 | More shared input words never lower the summary relevance. |
| TaskDomains.Relevance | 06_Specialized_Applications/18_task_specific_prompts.py:467-491 | Summaries score by word overlap and fail (division by zero) iff the input has no words. Code scores the share of the seven code indicators present, creative writing the share of the five narrative ones, and every other domain 0.7. Every value lies in [0, 1]. |
| TaskDomains.IndicatorRelevanceGrows | 06_Specialized_Applications/18_task_specific_prompts.py:478-488 | For code and creative writing, joining more text on either side never lowers relevance. |
| TaskDomains.EvaluateTaskPerformance | 06_Specialized_Applications/18_task_specific_prompts.py:447-465 | Fails iff relevance fails. Otherwise accuracy is the 0.8 placeholder, time is 0, the length is the word count, and relevance and format compliance are their scorers' values. |
| TaskDomains.FormatCompliance | 06_Specialized_Applications/18_task_specific_prompts.py:494-513 | 1 less the three deductions. Lies in [0.5, 1], and is 1 iff none applies. |
| TaskDomains.Coherence | 06_Specialized_Applications/18_task_specific_prompts.py:531-535 | The value is min(1, n/3) for n transition words present: n/3 up to three, and 1 iff three or more. It is 0 iff none. |
| TaskDomains.CoherenceGrows | 06_Specialized_Applications/18_task_specific_prompts.py:531-535 | Joining more text on either side never lowers coherence. |
| TaskDomains.DomainAppropriateness | 06_Specialized_Applications/18_task_specific_prompts.py:537-542 | The share of domain keywords present, in [0, 1]. It is 1 iff all are present. |
| TaskDomains.EvaluateIntegrationStep | 06_Specialized_Applications/18_task_specific_prompts.py:515-529 | Quality is the mean of completeness, coherence and appropriateness, in [0, 1]. |
| Negative.NewValidator | 06_Specialized_Applications/16_negative_prompting.py:43-50 | Starts with the initial constraint types, each with an empty list. |
| Negative.AddConstraint | 06_Specialized_Applications/16_negative_prompting.py:52-60 | Appends to the type's list, creating it last for an unseen type. Other types are unchanged. The severity defaults to medium. |
| Negative.CheckList | 06_Specialized_Applications/16_negative_prompting.py:66-86 | Every matching constraint is reported. Every violation is of the list's type and is built from a matching constraint, with its pattern, severity and suggestion. One entry per match, in list order, is stated by Negative.CheckListInOrder. |
| Negative.CheckListInOrder | 06_Specialized_Applications/16_negative_prompting.py:66-86 | The violations correspond one to one, in list order, to the constraints whose pattern matches. |
| Negative.ValidateOutput | 06_Specialized_Applications/16_negative_prompting.py:62-88 | The forbidden words' violations, then the forbidden phrases'. No other type is checked. |
| Negative.OtherTypesIgnored | 06_Specialized_Applications/16_negative_prompting.py:62-88 | A constraint of any other type never changes the violations. |
| Negative.MatchingWordReported | 06_Specialized_Applications/16_negative_prompting.py:66-77 | A matching forbidden word is reported with its pattern, severity and suggestion. |
| Negative.ViolationScore | 06_Specialized_Applications/16_negative_prompting.py:90-97 | 1 with no violations, else 1 − mean penalty. Lies in [0.4, 1], and is at most 0.9 with any violation. |
| Negative.UniformSeverity | 06_Specialized_Applications/16_negative_prompting.py:90-97 | When all violations share a severity, the score is 1 − that severity's weight. |
| Evaluation.WeightsSumToOne | 07_Advanced_Applications/22_evaluating_effectiveness.py:76-105 | The seven weights sum to 1. |
| Evaluation.EvaluateResponse | 07_Advanced_Applications/22_evaluating_effectiveness.py:115-152 | Overall is the weighted sum, in [0, 1] for scores in [0, 1]. All-ones gives 1 and EXCELLENT. The rating follows the thresholds. |
| Evaluation.RatingMonotone | 07_Advanced_Applications/22_evaluating_effectiveness.py:136-143 | A higher score never gets a lower rating. |
| Evaluation.WholeConceptImpliesWord | 07_Advanced_Applications/22_evaluating_effectiveness.py:361-367 | The whole-concept test adds nothing for a concept with words. |
| Evaluation.EmptyConceptFound | 07_Advanced_Applications/22_evaluating_effectiveness.py:361-367 | The empty concept is found in every text. |
| Evaluation.AccuracyScore | 07_Advanced_Applications/22_evaluating_effectiveness.py:175-199 | Lies in [0, 1]. Its base is the share of required facts, or 0.8 with none required. The value is the base with no forbidden hit, 0.8, 0.6, 0.4 or 0.2 of the base with one to four hits, and 0 from five hits. |
| Evaluation.AccuracyFull | 07_Advanced_Applications/22_evaluating_effectiveness.py:181-195 | All required facts and no forbidden ones give 1. |
| Evaluation.AccuracyAntitone | 07_Advanced_Applications/22_evaluating_effectiveness.py:175-199 | Finding more forbidden facts never raises the accuracy. |
| Evaluation.ConsistencyScore | 07_Advanced_Applications/22_evaluating_effectiveness.py:287-308 | 1 − 0.3·c over the three pattern pairs, so it is one of 1, 0.7, 0.4 and 0.1. |
| Evaluation.LengthEfficiency | 07_Advanced_Applications/22_evaluating_effectiveness.py:312-318 | Lies in [0.3, 1]. It is 1 iff words ≤ target, else max(0.3, target/words). |
| Evaluation.LengthEfficiencyMonotone | 07_Advanced_Applications/22_evaluating_effectiveness.py:312-318 | More words never raise the length term. |
| Evaluation.EfficiencyScore | 07_Advanced_Applications/22_evaluating_effectiveness.py:310-333 | 0.7·length term + 0.3·density, capped, in [0, 1]. Without a target the length term is measured against 150 words, so a short text with no informative words scores 0.7. |
| Evaluation.SortDesc | 07_Advanced_Applications/22_evaluating_effectiveness.py:393 | The result is sorted highest first and is a permutation of the input. |
| Evaluation.ComparePrompts | 07_Advanced_Applications/22_evaluating_effectiveness.py:376-407 | Fails iff there are no entries. Otherwise the ranking and analysis of the scores. |
| Evaluation.Compare | 07_Advanced_Applications/22_evaluating_effectiveness.py:393-407 | A sorted permutation. Best is the first score and worst the last, and every score lies between them. Range = best − worst, average = the mean of the input scores, and variance ≥ 0. Range and variance are 0 for one prompt. |
| Evaluation.SumScoresPermutation | 07_Advanced_Applications/22_evaluating_effectiveness.py:393-405 | Reordering the prompts does not change the score total, so the sorted list has the input's mean. |
| Evaluation.BestIsMaxOfInput | 07_Advanced_Applications/22_evaluating_effectiveness.py:401 | The best score is at least every prompt's score. |
| Evaluation.FirstOfSortedIsMax | 07_Advanced_Applications/22_evaluating_effectiveness.py:401-402 | In a descending list the first score is the maximum and the last the minimum. |
| Formatting.IndicatorScore | 06_Specialized_Applications/17_prompt_formatting_structure.py:84-90 | The share of the four words present, in [0, 1]. It is 1 iff all are present and 0 iff none. |
| Formatting.StructureScoreWith | 06_Specialized_Applications/17_prompt_formatting_structure.py:92-113 | The sum of 0.3, 0.3, 0.2 and 0.2 credits, in [0, 1]. It is 1 iff all four features are present and 0 iff none. |
| Formatting.StructureScore | 06_Specialized_Applications/17_prompt_formatting_structure.py:92-113 | With the bullet meant, a response containing • scores at least 0.3. |
| Formatting.BulletMissedAsWritten | 06_Specialized_Applications/17_prompt_formatting_structure.py:101 | As written, "• milk" scores 0. Corrected, it scores 0.3. |
| Formatting.AnalyzeResponse | 06_Specialized_Applications/17_prompt_formatting_structure.py:61-82 | Echoes the format and text and sets the length to the word count. The clarity and engagement scores are the indicator shares. The structure score is the corrected one, with • as a list marker. Each score is in [0, 1]. |
| Formatting.AnalyzeResponseAsWritten | 06_Specialized_Applications/17_prompt_formatting_structure.py:61-82 | The analysis as written. The same fields, but the structure score uses the misread bullet of line 101. |
| Formatting.BulletAnalysisDiffers | 06_Specialized_Applications/17_prompt_formatting_structure.py:61-101 | For "• milk", the two analyses differ only in the structure score: 0 as written, 0.3 corrected. |
| Formatting.StructuralElementsWith | 06_Specialized_Applications/17_prompt_formatting_structure.py:374-390 | The counts, and lines = newlines + 1. Density = min(1, 5·count/lines), 0 iff no elements and 1 iff 5·count ≥ lines. |
| Formatting.StructuralElements | 06_Specialized_Applications/17_prompt_formatting_structure.py:378-381 | With the glyphs meant, a bullet or a visual glyph present is counted. |
| Formatting.GlyphsMissedAsWritten | 06_Specialized_Applications/17_prompt_formatting_structure.py:378-381 | As written, "•✓" counts no bullet and no visual element. |
| Formatting.GlyphsCounted | 06_Specialized_Applications/17_prompt_formatting_structure.py:378-381 | Corrected, "•✓" counts one bullet and one visual element. |
| Formatting.LengthScore | 06_Specialized_Applications/17_prompt_formatting_structure.py:400-403 | Lies in [0, 1]. It is 1 iff the average is 15, and 0 iff the average is 0 or at least 30. |
| Formatting.Readability | 06_Specialized_Applications/17_prompt_formatting_structure.py:392-409 | '.'-splitting is never empty, so the early return is dead. The mean of the two terms, in [0, 1]. |
| Formatting.ReadabilityFull | 06_Specialized_Applications/17_prompt_formatting_structure.py:392-409 | Full readability iff 15 words per piece on average and all five transitions present. |
| Formatting.AssessCompleteness | 06_Specialized_Applications/17_prompt_formatting_structure.py:411-422 | The share of the ten components present, in [0, 1]. It is 1 iff all are present and 0 iff none. |
| Ambiguity.DetectAmbiguity | 05_Optimization_and_Refinement/14_handling_ambiguity.py:47-62 | Each found list holds the listed words occurring in the lowered text, in list order, each once. The score is their total, ≤ 15. Clarification is needed iff the score > 0, iff some word occurs. |
| Ambiguity.DetectMonotone | 05_Optimization_and_Refinement/14_handling_ambiguity.py:52-55 | Adding text around a prompt never lowers its score. |
| Ambiguity.ClarifiedPrompt | 05_Optimization_and_Refinement/14_handling_ambiguity.py:66 | The context, then the separator, then the prompt, at the stated positions. |
| Ambiguity.ClarifiedPromptInjective | 05_Optimization_and_Refinement/14_handling_ambiguity.py:66 | For a fixed context, the prompt can be read back from the clarified prompt. |
| Ambiguity.ResolveWithContext | 05_Optimization_and_Refinement/14_handling_ambiguity.py:64-67 | The model's answer to the clarified prompt. |
| Instructions.ClarityOf | 04_Advanced_Implementations/12_instruction_engineering.py:70-94 | Score = 2 × feedback lines, in {0, 2, 4, 6, 8}. Lines = criteria met, and each fixed line is present iff its criterion holds. |
| Instructions.ScoreClarity | 04_Advanced_Implementations/12_instruction_engineering.py:70-94 | The same for an instruction's four criteria. |
| Instructions.ClarityFull | 04_Advanced_Implementations/12_instruction_engineering.py:70-94 | 8 iff all four criteria hold. |
| Instructions.FormatCountsAsAudience | 04_Advanced_Implementations/12_instruction_engineering.py:80-87 | An instruction mentioning "format" also meets the audience criterion, since "for" occurs in "format". |
| Instructions.Verdict | 04_Advanced_Implementations/12_instruction_engineering.py:142-174 | A message starts with ✓ iff its check passed. |
| Instructions.ValidateResponse | 04_Advanced_Implementations/12_instruction_engineering.py:135-183 | Exactly five checks. Passed = checks that hold, ≤ 5. Each message starts with ✓ iff its check holds, and the score and rate strings follow. |
| Instructions.ValidationFull | 04_Advanced_Implementations/12_instruction_engineering.py:176-183 | 5 passed iff all five conditions hold. |
| Optimization.TestVariant | 05_Optimization_and_Refinement/13_prompt_optimization.py:48-59 | The model's answer to prompt + blank line + content, with its word count and bullet flag. |
| Optimization.LengthBonus | 05_Optimization_and_Refinement/13_prompt_optimization.py:65-69 | One of 0, 0.5 and 1.5, and 1.5 iff words ≤ target. |
| Optimization.ScoreResponse | 05_Optimization_and_Refinement/13_prompt_optimization.py:61-79 | 5 + the three bonuses, in [5, 8], so the cap never binds. 8 iff all three conditions hold. The length target defaults to 40 words. |
| Optimization.ScoreMonotoneInWords | 05_Optimization_and_Refinement/13_prompt_optimization.py:66-69 | A shorter response never scores lower. |
| Optimization.StageQuality | 05_Optimization_and_Refinement/13_prompt_optimization.py:143-150 | 2 × checks passed, in {0, 2, 4, 6}. |
| Optimization.ParseQualityRoundTrip | 05_Optimization_and_Refinement/13_prompt_optimization.py:154-161 | Parsing a recorded "q/6" label gives back q. |
| Optimization.ImprovementOfStages | 05_Optimization_and_Refinement/13_prompt_optimization.py:159-162 | The improvement is (last − first)/6·100, in [−100, 100], and 0 iff the qualities are equal. |
| Length.SentenceCountZero | 05_Optimization_and_Refinement/15_length_management.py:52 | No sentences iff the text has no '.', '!' or '?'. There are never more sentences than marks. |
| Length.SentenceCountAppend | 05_Optimization_and_Refinement/15_length_management.py:52 | Counts add across a join whose left part ends in a non-mark. |
| Length.ReadabilityOf | 05_Optimization_and_Refinement/15_length_management.py:56 | Lies in [2, 10]. It is 10 iff the average is 0, and 2 iff the average is at least 24. |
| Length.AnalyzeLength | 05_Optimization_and_Refinement/15_length_management.py:48-64 | Counts, average = words/max(sentences, 1), and readability in [2, 10], 10 iff there are no words. |
| Length.EfficiencyOf | 05_Optimization_and_Refinement/15_length_management.py:105 | (score − readability) × max(words, 1) = 100, so the score is readability + 100/max(words, 1), in (2, 110]. |
| Length.EfficiencyPrefersShorter | 05_Optimization_and_Refinement/15_length_management.py:105 | Of two equally readable variants, the shorter scores at least as high. |
| Length.BestVariant | 05_Optimization_and_Refinement/15_length_management.py:109-110 | None iff there are no variants. Otherwise the first variant of maximal score. |

## Left out

- Model and network calls are function parameters. This covers `chain.invoke`, `llm.invoke`, the API clients and their retry loop, and sentence-transformer and sklearn similarity.
- Concurrency: the thread-pool fan-out is modelled as a sequential map. The worker count is kept.
- Time: wall-clock timings, `time.sleep`, timestamps and `execution_time` are parameters or left out. The back-off is kept as the list of sleep lengths.
- Logging, console output, file output, `export_to_csv`, `print_summary` and `get_account_balance` are left out because they are I/O.
- `round(...)` and IEEE float behaviour: scores are exact reals. In script 15, `efficiency_score` adds the rounded readability. In script 13, `execution_time` is rounded to two places before the 3-second test.
- Length.EfficiencyOf: uses the exact readability, not the value rounded to one decimal that the source adds.
- Regular expressions are an abstract search predicate, `Oracles.Matcher`. This covers the safety patterns (21), the negative constraints (16) and the contradiction pairs (22). The script-range tests of 19 are not regular expressions here: they are written as code-point ranges.
- The bullet and numbered line patterns of the constraint validator are written out by hand, as is the sentence-mark count of 15. The `\s` class is Python's whitespace set.
- `lower()` is ASCII-only. `re.IGNORECASE` case folding beyond that belongs to the matcher.
- Constraints.ValidateContentConstraints: the word lists in its messages follow Python's `repr` for quotes, backslash, tab, newline, carriage return and the unprintable code points up to U+00AD. Other code points that Python's `str.isprintable` rejects, such as U+2028 or unassigned ones, are copied, where Python writes a `\x`, `\u` or `\U` escape.
- Constraints.IsNumberedLine: a digit is an ASCII digit 0-9. Python's `\d` also matches other Unicode decimal digits, such as Arabic-Indic ones.
- Voting.FirstNumber: reads ASCII digits 0-9 only. Python's `\d` also matches other Unicode decimal digits.
- ParallelChain.SynthesisInput: upper-cases task names in ASCII only. `str.upper()` also maps non-ASCII letters.
- `json.loads` and `ElementTree` parsing are parameters.
- `validate_format_pattern`, `extract_final_answer`, `_extract_prohibited_terms` and the `validate_json_structure` helper are left out: they are regex-heavy or parser calls. `extract_final_answer` is a parameter of the voting functions.
- Script 22: the relevance, completeness, clarity and creativity metrics are regex or model scoring. `evaluate_response` takes the seven metric scores as input. `_evaluate_efficiency` takes the count of long words as input.
- Evaluation.Variance: only non-negativity and the one-prompt case are stated, not the value of `statistics.variance`.
- Evaluation.SortDesc: states sorted and permutation, not the stability with which Python keeps tied prompts in input order.
- The `hash()`-based `prompt_id` in 22 is left out because it varies between runs.
- TaskDomains.EvaluateTaskPerformance: the execution time is the source's placeholder 0.0. The summary relevance for an input without words is a failure (`None`), where Python raises `ZeroDivisionError`.
- `_evaluate_cultural_adaptation` and `_evaluate_message_preservation` in 19 are left out: they lie outside the detection and similarity core.
- `create_content_pipeline_chain` and `create_adaptive_complexity_chain` are left out. The first reads a `history` key the executor never sets. The second routes on model output.
- `ChainPerformanceMetrics.get_summary`: only `total_steps`, the count of recorded step timings, is modelled. The other fields are clock times.
- Optimization.ParseQuality: accepts plain digits only. Python's `int` also takes surrounding blanks, a sign and underscores; labels written by `f"{q}/6"` contain none of them.
- Cost.SessionSummary: the technique list comes from a Python set. Only its membership is stated, not its order.
- Voting.SemanticSimilarityVote: the fallback to the majority vote when there are no groups is unreachable for a non-empty input, and is not modelled.
- Voting.SemanticSimilarityVote: votes over the corrected grouping. For two empty extracted answers it gives count 2 and confidence 1.0, where the source gives count 1 and confidence 0.5. The vote as written is Voting.SemanticSimilarityVoteAsWritten.
- Voting.GroupStep: models the corrected step. A repeated unmatched answer joins its existing group instead of replacing it. The step as written is Voting.GroupStepAsWritten.
- Formatting.AnalyzeResponse: its structure score credits the • bullet. The source tests the misread "â€¢" of line 101. The analysis as written is Formatting.AnalyzeResponseAsWritten.
- The demo scripts 01–11, the `run_*` example drivers and the test runners are left out: they are prompt templates and model calls.

## Findings

| source | as written | input that shows it | evidently intended | confidence | as-written member | corrected member |
|---|---|---|---|---|---|---|
| shared_utils/voting_utils.py:110-111 | An answer that matches no group is stored with `answer_groups[answer] = [i]`. An empty answer is never similar, even to itself, so a second empty answer overwrites the first one's group. | responses whose extracted answers are `["", ""]` | Append the index to the existing group, so the groups partition all indices | not executed | Voting.EmptyAnswersOverwrite | Voting.EmptyAnswersKept |
| 06_Specialized_Applications/17_prompt_formatting_structure.py:101 | The list markers hold the bullet as the mis-decoded three characters "â€¢", not "•" | "• milk" scores 0.0 | A • bullet earns the 0.3 list credit | not executed | Formatting.BulletMissedAsWritten | Formatting.StructureScore |
| 06_Specialized_Applications/17_prompt_formatting_structure.py:378-381 | The bullet and the four visual glyphs (✓, ⚠️, 🚀, 📋) are likewise mis-decoded sequences | "•✓" counts 0 bullets and 0 visual elements | Each glyph present is counted | not executed | Formatting.GlyphsMissedAsWritten | Formatting.GlyphsCounted |
