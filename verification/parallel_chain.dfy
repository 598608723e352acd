/** The parallel executor of the prompt-chain manager: every template is run
    against the same document, the outcomes are gathered into a results dict
    in the templates' order, and the successful outputs are optionally
    combined by a synthesis call.

    The model calls are oracles: `TaskGenerator(template, document)` and
    `SynthesisGenerator(template, results, document)` say what the language
    model returns (or raises). */
module ParallelChain {
  import opened Text
  import opened Wrappers
  import opened OrderedMap
  import opened Chain
  import opened Selection
  /** One task of the parallel executor as `run_single_prompt` reports it. */
  datatype TaskReport =
    | TaskSucceeded(name: string, output: string)
    | TaskErrored(name: string, error: string)
  {
    /** The `result` field: the output, or `"Error: "` and the message. */
    function Result(): string {
      match this
      case TaskSucceeded(_, out) => out
      case TaskErrored(_, e) => ErrorPrefix + e
    }
  }

  const ErrorPrefix: string := "Error: "
  const SynthesisFailedPrefix: string := "Synthesis failed: "
  const NameSeparator: string := ":\n"
  const BlankLine: string := "\n\n"
  const NoWorkers: string := "max_workers must be greater than 0"

  /** The model applied to a template with the document filled in. */
  type TaskGenerator = (string, string) -> Generation
  /** The model applied to the synthesis template with the combined results
      and the original document filled in. */
  type SynthesisGenerator = (string, string, string) -> Generation

  function RunSingle(name: string, template: string, document: string, gen: TaskGenerator): (t: TaskReport)
    ensures t.name == name
    ensures t.TaskSucceeded? <==> gen(template, document).Generated?
  {
    match gen(template, document)
    case Generated(out) => TaskSucceeded(name, out)
    case Raised(m) => TaskErrored(name, m)
  }

  function Names(ts: seq<TaskReport>): (ns: seq<string>)
    ensures |ns| == |ts| && forall j :: 0 <= j < |ts| ==> ns[j] == ts[j].name
  {
    seq(|ts|, j requires 0 <= j < |ts| => ts[j].name)
  }

  /** `{r["name"]: r["result"] for r in ts}`. */
  function ResultsDict(ts: seq<TaskReport>): (m: OMap<string, string>)
    ensures m.Valid()
  {
    if |ts| == 0 then Empty()
    else ResultsDict(ts[..|ts| - 1]).Put(ts[|ts| - 1].name, ts[|ts| - 1].Result())
  }

  /** With distinct task names the dict has one key per task, in task order,
      mapped to that task's result. */
  lemma {:induction false} ResultsDictSpec(ts: seq<TaskReport>)
    requires Distinct(Names(ts))
    ensures ResultsDict(ts).keys == Names(ts)
    ensures forall j :: 0 <= j < |ts| ==> ResultsDict(ts).values[ts[j].name] == ts[j].Result()
  {
    ResultsDictKeys(ts);
    ResultsDictValues(ts);
  }

  lemma NamesSnoc(ts: seq<TaskReport>)
    requires |ts| > 0
    ensures Names(ts) == Names(ts[..|ts| - 1]) + [ts[|ts| - 1].name]
  {
  }

  lemma {:induction false} ResultsDictKeys(ts: seq<TaskReport>)
    requires Distinct(Names(ts))
    ensures ResultsDict(ts).keys == Names(ts)
  {
    if |ts| > 0 {
      var init, last := ts[..|ts| - 1], ts[|ts| - 1];
      var names := Names(ts);
      NamesSnoc(ts);
      assert Distinct(Names(init));
      ResultsDictKeys(init);
      assert last.name !in Names(init) by {
        forall j | 0 <= j < |init|
          ensures Names(init)[j] != last.name
        {
          assert names[j] != names[|ts| - 1];
        }
      }
    }
  }

  lemma {:induction false} ResultsDictValues(ts: seq<TaskReport>)
    requires Distinct(Names(ts))
    ensures forall j :: 0 <= j < |ts| ==>
      ts[j].name in ResultsDict(ts).values && ResultsDict(ts).values[ts[j].name] == ts[j].Result()
  {
    if |ts| > 0 {
      var init, last := ts[..|ts| - 1], ts[|ts| - 1];
      var names := Names(ts);
      NamesSnoc(ts);
      assert Distinct(Names(init));
      ResultsDictValues(init);
      var m0 := ResultsDict(init);
      assert ResultsDict(ts).values == m0.values[last.name := last.Result()];
      forall j | 0 <= j < |ts| - 1
        ensures ts[j].name in ResultsDict(ts).values && ResultsDict(ts).values[ts[j].name] == ts[j].Result()
      {
        assert names[j] != names[|ts| - 1];
        assert init[j] == ts[j];
      }
    }
  }

  /** The successful tasks, in task order. */
  function Successes(ts: seq<TaskReport>): (ss: seq<TaskReport>)
    ensures |ss| <= |ts|
    ensures forall t :: t in ss <==> t in ts && t.TaskSucceeded?
    ensures |ss| == |ts| <==> forall j :: 0 <= j < |ts| ==> ts[j].TaskSucceeded?
  {
    if |ts| == 0 then []
    else (if ts[0].TaskSucceeded? then [ts[0]] else []) + Successes(ts[1..])
  }

  /** The success test, as a value. */
  function Succeeded(): TaskReport -> bool {
    (t: TaskReport) => t.TaskSucceeded?
  }

  /** The successful tasks are selected in task order, once each. */
  lemma {:induction false} SuccessesInOrder(ts: seq<TaskReport>)
    ensures SelectsInOrder(Successes(ts), ts, Succeeded(), Identity())
  {
    if |ts| > 0 {
      SuccessesInOrder(ts[1..]);
      SelectsCons(Successes(ts[1..]), ts, Succeeded(), Identity());
    }
  }

  /** The synthesis input: each successful task's upper-cased name, a colon,
      a newline and its output, separated by blank lines. */
  function SynthesisInput(ss: seq<TaskReport>): string {
    Join(seq(|ss|, j requires 0 <= j < |ss| => Upper(ss[j].name) + NameSeparator + ss[j].Result()), BlankLine)
  }

  datatype ParallelRun = ParallelRun(
    parallelResults: OMap<string, string>,
    successfulCount: nat,
    failedCount: nat,
    synthesis: Option<string>,
    details: seq<TaskReport>,
    maxWorkers: nat)

  /** The outcome of the model call for the `j`-th template. */
  function CallOf(templates: OMap<string, string>, document: string, gen: TaskGenerator, j: nat): Generation
    requires templates.Valid() && j < |templates.keys|
  {
    gen(templates.values[templates.keys[j]], document)
  }

  /** The report of every template, in the dict's order. */
  function TaskReports(templates: OMap<string, string>, document: string, gen: TaskGenerator): (ts: seq<TaskReport>)
    requires templates.Valid()
    ensures |ts| == |templates.keys|
    ensures forall j :: 0 <= j < |ts| ==>
      ts[j] == RunSingle(templates.keys[j], templates.values[templates.keys[j]], document, gen)
  {
    var n := |templates.keys|;
    seq(n, j requires 0 <= j < n && templates.Valid() =>
          RunSingle(templates.keys[j], templates.values[templates.keys[j]], document, gen))
  }

  /** The synthesis step: run only with a non-empty template and some
      successful task. */
  function Synthesize(synthesisTemplate: Option<string>, ok: seq<TaskReport>, document: string,
                      synth: SynthesisGenerator): Option<string>
  {
    if synthesisTemplate.None? || |synthesisTemplate.value| == 0 || |ok| == 0 then None
    else match synth(synthesisTemplate.value, SynthesisInput(ok), document)
      case Generated(out) => Some(out)
      case Raised(m) => Some(SynthesisFailedPrefix + m)
  }

  /** `execute_parallel_chains`: every template run against the document, in
      the dict's order. With no templates the worker pool cannot be created
      and the call fails. */
  function ExecuteParallelChains(templates: OMap<string, string>, document: string,
                                 synthesisTemplate: Option<string>, gen: TaskGenerator,
                                 synth: SynthesisGenerator): (r: Result<ParallelRun, string>)
    requires templates.Valid()
    ensures r.Ok? <==> |templates.keys| > 0
    ensures r.Ok? ==>
      var ts := TaskReports(templates, document, gen);
      && r.value.details == ts
      && r.value.parallelResults == ResultsDict(ts)
      && r.value.parallelResults.keys == templates.keys
      && r.value.successfulCount == |Successes(ts)|
      && r.value.failedCount == |ts| - |Successes(ts)|
      && r.value.synthesis == Synthesize(synthesisTemplate, Successes(ts), document, synth)
      && r.value.maxWorkers == if |ts| < 4 then |ts| else 4
  {
    var n := |templates.keys|;
    if n == 0 then Err(NoWorkers)
    else
      var details := TaskReports(templates, document, gen);
      TaskNames(templates, document, gen);
      ResultsDictSpec(details);
      var ok := Successes(details);
      Ok(ParallelRun(ResultsDict(details), |ok|, n - |ok|, Synthesize(synthesisTemplate, ok, document, synth),
                     details, if n < 4 then n else 4))
  }

  /** The parallel executor fails exactly when there are no templates. */
  lemma ParallelFailsOnlyWhenEmpty(templates: OMap<string, string>, document: string,
                                   synthesisTemplate: Option<string>, gen: TaskGenerator, synth: SynthesisGenerator)
    requires templates.Valid()
    ensures ExecuteParallelChains(templates, document, synthesisTemplate, gen, synth).Err? <==> |templates.keys| == 0
  {
  }

  /** One detail per template in the dict's order, each a success exactly
      when its model call returned; the results dict is keyed like the
      templates and holds each output, or `"Error: "` and the message. */
  lemma ParallelResults(templates: OMap<string, string>, document: string,
                        synthesisTemplate: Option<string>, gen: TaskGenerator, synth: SynthesisGenerator)
    requires templates.Valid() && |templates.keys| > 0
    ensures var p := ExecuteParallelChains(templates, document, synthesisTemplate, gen, synth).value;
      && |p.details| == |templates.keys|
      && (forall j :: 0 <= j < |templates.keys| ==>
            && p.details[j].name == templates.keys[j]
            && (p.details[j].TaskSucceeded? <==> CallOf(templates, document, gen, j).Generated?))
      && p.parallelResults.keys == templates.keys
      && (forall j :: 0 <= j < |templates.keys| ==>
            && templates.keys[j] in p.parallelResults.values
            && p.parallelResults.values[templates.keys[j]] ==
              match CallOf(templates, document, gen, j)
              case Generated(out) => out
              case Raised(m) => ErrorPrefix + m)
  {
    var ts := TaskReports(templates, document, gen);
    forall j | 0 <= j < |ts|
      ensures && ts[j].name == templates.keys[j]
              && (ts[j].TaskSucceeded? <==> CallOf(templates, document, gen, j).Generated?)
              && ts[j].Result() == match CallOf(templates, document, gen, j)
                   case Generated(out) => out
                   case Raised(m) => ErrorPrefix + m
    {
      TaskReportAt(templates, document, gen, j);
    }
    TaskNames(templates, document, gen);
    ResultsDictSpec(ts);
  }

  /** Successes and failures add up to the number of templates; there are no
      failures exactly when every call returned and no successes exactly when
      every call raised. */
  lemma ParallelCounts(templates: OMap<string, string>, document: string,
                       synthesisTemplate: Option<string>, gen: TaskGenerator, synth: SynthesisGenerator)
    requires templates.Valid() && |templates.keys| > 0
    ensures var p := ExecuteParallelChains(templates, document, synthesisTemplate, gen, synth).value;
      && p.successfulCount + p.failedCount == |templates.keys|
      && (p.failedCount == 0 <==> forall j :: 0 <= j < |templates.keys| ==> CallOf(templates, document, gen, j).Generated?)
      && (p.successfulCount == 0 <==> forall j :: 0 <= j < |templates.keys| ==> CallOf(templates, document, gen, j).Raised?)
  {
    var ts := TaskReports(templates, document, gen);
    NoSuccesses(ts);
    forall j | 0 <= j < |ts|
      ensures ts[j].TaskSucceeded? <==> CallOf(templates, document, gen, j).Generated?
    {
      TaskReportAt(templates, document, gen, j);
    }
  }

  /** The reports are named like the templates, in the same order. */
  lemma TaskNames(templates: OMap<string, string>, document: string, gen: TaskGenerator)
    requires templates.Valid()
    ensures Names(TaskReports(templates, document, gen)) == templates.keys
  {
    var ts := TaskReports(templates, document, gen);
    forall j | 0 <= j < |ts| ensures ts[j].name == templates.keys[j] {
      TaskReportAt(templates, document, gen, j);
    }
  }

  /** The `j`-th report names the `j`-th template, succeeds exactly when its
      model call returned, and holds the output or the error. */
  lemma TaskReportAt(templates: OMap<string, string>, document: string, gen: TaskGenerator, j: nat)
    requires templates.Valid() && j < |templates.keys|
    ensures var t := TaskReports(templates, document, gen)[j];
      && t.name == templates.keys[j]
      && (t.TaskSucceeded? <==> CallOf(templates, document, gen, j).Generated?)
      && t.Result() == match CallOf(templates, document, gen, j)
           case Generated(out) => out
           case Raised(m) => ErrorPrefix + m
  {
  }

  /** There are no successes exactly when every task errored. */
  lemma NoSuccesses(ts: seq<TaskReport>)
    ensures |Successes(ts)| == 0 <==> forall j :: 0 <= j < |ts| ==> ts[j].TaskErrored?
  {
    if |Successes(ts)| > 0 {
      var s := Successes(ts)[0];
      assert s in Successes(ts);
      var j :| 0 <= j < |ts| && ts[j] == s;
    } else {
      forall j | 0 <= j < |ts| ensures ts[j].TaskErrored? {
        assert ts[j] in ts;
      }
    }
  }

  /** A synthesis is attempted exactly when a non-empty synthesis template is
      given and some task succeeded, and a raising synthesis call is reported
      as `"Synthesis failed: "` and the message. Between one and four workers
      are used. */
  lemma ParallelSynthesis(templates: OMap<string, string>, document: string,
                          synthesisTemplate: Option<string>, gen: TaskGenerator, synth: SynthesisGenerator)
    requires templates.Valid() && |templates.keys| > 0
    ensures var p := ExecuteParallelChains(templates, document, synthesisTemplate, gen, synth).value;
      && (p.synthesis.Some? <==> synthesisTemplate.Some? && |synthesisTemplate.value| > 0 && p.successfulCount > 0)
      && (p.synthesis.Some? ==>
            var call := synth(synthesisTemplate.value, SynthesisInput(Successes(p.details)), document);
            p.synthesis.value == if call.Generated? then call.text else SynthesisFailedPrefix + call.message)
      && 1 <= p.maxWorkers <= 4 && p.maxWorkers <= |templates.keys|
      && (|templates.keys| >= 4 ==> p.maxWorkers == 4)
  {
  }
}
