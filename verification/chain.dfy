/** The prompt-chain manager: a sequential executor that threads each step's
    output into the next step and retries failed attempts with exponential
    backoff, the per-manager performance bookkeeping, and the two stock
    validators. The parallel executor is in `ParallelChain`.

    The model call is an oracle: `Generator(step, input, attempt)` says what the
    language model returns (or raises) on the given attempt of the given
    0-based step when fed the given input. Sleeping is replaced by the list of
    waits the executor would have slept. */
module Chain {
  import opened Text
  import opened Wrappers

  /** One call of the text generator: the generated text, or the message of
      the exception it raised. */
  datatype Generation = Generated(text: string) | Raised(message: string)

  /** (0-based step index, input of the step, 0-based attempt) to outcome. */
  type Generator = (nat, string, nat) -> Generation

  /** A validator callable, known only by a handle; what it answers is
      given by a `Judge`. */
  type Validator = nat

  /** What a validator call does with an output: returns a truthy value,
      returns a falsy one, or raises an exception with the given message. */
  datatype Ruling = Accepts | Refuses | Throws(message: string)

  /** (validator, output) to what the validator call does. */
  type Judge = (Validator, string) -> Ruling

  /** The message an attempt fails with when a validator does not accept:
      the message of the exception the validator raised, or else the
      executor's own rejection. */
  function Failure(v: Ruling, rejection: string): string {
    if v.Throws? then v.message else rejection
  }

  datatype NamedValidator = NamedValidator(name: string, check: Validator)

  /** A chain step: its template, an optional `validators` dict (kept in
      insertion order) and an optional single `validator`. A falsy
      `validator` is `None`. */
  datatype Step = Step(template: string, validators: Option<seq<NamedValidator>>, validator: Option<Validator>)

  datatype ValidationRecord = ValidationRecord(validator: string, passed: bool)

  /** The verdict of a step's validators on one output. */
  datatype Check = Passed(records: seq<ValidationRecord>) | Rejected(message: string)

  const StepWord: string := "Step "
  const FailedWord: string := " failed "
  const ValidationWord: string := " validation"
  const ValidationFailed: string := " validation failed"
  const DefaultValidator: string := "default"

  function StepLabel(i: nat): string {
    StepWord + NatToString(i + 1)
  }

  /** The message of a named validator that rejects the output of step `i`. */
  function ValidatorRejection(i: nat, name: string): string {
    StepLabel(i) + FailedWord + name + ValidationWord
  }

  /** The message of a single validator that rejects the output of step `i`. */
  function DefaultRejection(i: nat): string {
    StepLabel(i) + ValidationFailed
  }

  /** The `validators` dict, run in order; the first validator that does
      not accept ends the run, with its own exception's message or with the
      rejection the executor raises for a falsy answer. */
  function RunValidators(judge: Judge, vs: seq<NamedValidator>, i: nat, output: string): (c: Check)
    ensures c.Passed? <==> forall j :: 0 <= j < |vs| ==> judge(vs[j].check, output).Accepts?
    ensures c.Passed? ==>
      && |c.records| == |vs|
      && forall j :: 0 <= j < |vs| ==> c.records[j] == ValidationRecord(vs[j].name, true)
    ensures c.Rejected? ==> exists j ::
      && 0 <= j < |vs| && !judge(vs[j].check, output).Accepts?
      && (forall q :: 0 <= q < j ==> judge(vs[q].check, output).Accepts?)
      && c.message == Failure(judge(vs[j].check, output), ValidatorRejection(i, vs[j].name))
  {
    if |vs| == 0 then Passed([])
    else if !judge(vs[0].check, output).Accepts? then
      Rejected(Failure(judge(vs[0].check, output), ValidatorRejection(i, vs[0].name)))
    else
      match RunValidators(judge, vs[1..], i, output)
      case Passed(rs) => Passed([ValidationRecord(vs[0].name, true)] + rs)
      case Rejected(m) =>
        RefusalShifts(judge, vs, i, output, m);
        Rejected(m)
  }

  /** A refusal found among `vs[1..]`, after `vs[0]` accepted, is the first
      refusal of `vs` itself, one position later. */
  lemma RefusalShifts(judge: Judge, vs: seq<NamedValidator>, i: nat, output: string, m: string)
    requires |vs| > 0 && judge(vs[0].check, output).Accepts?
    requires exists j ::
      && 0 <= j < |vs[1..]| && !judge(vs[1..][j].check, output).Accepts?
      && (forall q :: 0 <= q < j ==> judge(vs[1..][q].check, output).Accepts?)
      && m == Failure(judge(vs[1..][j].check, output), ValidatorRejection(i, vs[1..][j].name))
    ensures exists j ::
      && 0 <= j < |vs| && !judge(vs[j].check, output).Accepts?
      && (forall q :: 0 <= q < j ==> judge(vs[q].check, output).Accepts?)
      && m == Failure(judge(vs[j].check, output), ValidatorRejection(i, vs[j].name))
  {
    var j :| 0 <= j < |vs[1..]| && !judge(vs[1..][j].check, output).Accepts?
      && (forall q :: 0 <= q < j ==> judge(vs[1..][q].check, output).Accepts?)
      && m == Failure(judge(vs[1..][j].check, output), ValidatorRejection(i, vs[1..][j].name));
    assert vs[j + 1] == vs[1..][j];
    forall q | 0 <= q < j + 1
      ensures judge(vs[q].check, output).Accepts?
    {
      if q > 0 {
        assert vs[q] == vs[1..][q - 1];
      }
    }
  }

  /** All validation a step applies to one output. A `validators` entry, even
      an empty one, takes precedence over a single `validator`. */
  function Validate(judge: Judge, step: Step, i: nat, output: string): (c: Check)
    ensures c.Passed? ==> forall r :: r in c.records ==> r.passed
    ensures step.validators.Some? ==>
      (c.Passed? <==> forall j :: 0 <= j < |step.validators.value| ==> judge(step.validators.value[j].check, output).Accepts?)
    ensures step.validators.None? && step.validator.Some? ==>
      var v := judge(step.validator.value, output);
      c == if v.Accepts? then Passed([ValidationRecord(DefaultValidator, true)])
           else Rejected(Failure(v, DefaultRejection(i)))
    ensures step.validators.None? && step.validator.None? ==> c == Passed([])
  {
    match step.validators
    case Some(vs) => RunValidators(judge, vs, i, output)
    case None =>
      match step.validator
      case Some(f) =>
        var v := judge(f, output);
        if v.Accepts? then Passed([ValidationRecord(DefaultValidator, true)])
        else Rejected(Failure(v, DefaultRejection(i)))
      case None => Passed([])
  }

  /** One attempt at a step: the generator call followed by validation. A
      false or raising validator fails the attempt exactly like a raised
      exception of the generator. */
  datatype Attempt = Succeeded(output: string, records: seq<ValidationRecord>) | AttemptFailed(message: string)

  function TryOnce(gen: Generator, judge: Judge, steps: seq<Step>, i: nat, input: string, k: nat): (a: Attempt)
    requires i < |steps|
  {
    match gen(i, input, k)
    case Raised(m) => AttemptFailed(m)
    case Generated(out) =>
      match Validate(judge, steps[i], i, out)
      case Passed(rs) => Succeeded(out, rs)
      case Rejected(m) => AttemptFailed(m)
  }

  /** A validator that raises, after the earlier validators of the step's
      dict accepted, fails the attempt with the exception's message, as the
      step's `except` clause does. */
  lemma RaisingValidatorFailsAttempt(gen: Generator, judge: Judge, steps: seq<Step>, i: nat, input: string, k: nat,
                                     vs: seq<NamedValidator>, j: nat)
    requires i < |steps| && gen(i, input, k).Generated? && steps[i].validators == Some(vs)
    requires j < |vs| && judge(vs[j].check, gen(i, input, k).text).Throws?
    requires forall q :: 0 <= q < j ==> judge(vs[q].check, gen(i, input, k).text).Accepts?
    ensures TryOnce(gen, judge, steps, i, input, k) == AttemptFailed(judge(vs[j].check, gen(i, input, k).text).message)
  {
    var out := gen(i, input, k).text;
    var c := RunValidators(judge, vs, i, out);
    assert c.Rejected?;
    var j' :| 0 <= j' < |vs| && !judge(vs[j'].check, out).Accepts?
      && (forall q :: 0 <= q < j' ==> judge(vs[q].check, out).Accepts?)
      && c.message == Failure(judge(vs[j'].check, out), ValidatorRejection(i, vs[j'].name));
    assert j' == j;
  }

  /** A single validator that raises fails the attempt with the exception's
      message. */
  lemma RaisingDefaultFailsAttempt(gen: Generator, judge: Judge, steps: seq<Step>, i: nat, input: string, k: nat)
    requires i < |steps| && gen(i, input, k).Generated?
    requires steps[i].validators.None? && steps[i].validator.Some?
    requires judge(steps[i].validator.value, gen(i, input, k).text).Throws?
    ensures TryOnce(gen, judge, steps, i, input, k) == AttemptFailed(judge(steps[i].validator.value, gen(i, input, k).text).message)
  {
  }

  /** How the retry loop of one step ends. */
  datatype StepRun =
    | StepCompleted(output: string, records: seq<ValidationRecord>, failures: nat)
    | Exhausted(lastError: string)

  /** The retry loop of step `i` from attempt `k` on: at most `maxRetries + 1`
      attempts in all. */
  function RunStep(gen: Generator, judge: Judge, steps: seq<Step>, i: nat, input: string, maxRetries: nat, k: nat): (s: StepRun)
    requires i < |steps| && k <= maxRetries
    ensures s.StepCompleted? ==>
      && k <= s.failures <= maxRetries
      && TryOnce(gen, judge, steps, i, input, s.failures) == Succeeded(s.output, s.records)
      && forall a :: k <= a < s.failures ==> TryOnce(gen, judge, steps, i, input, a).AttemptFailed?
    ensures s.Exhausted? ==>
      && (forall a :: k <= a <= maxRetries ==> TryOnce(gen, judge, steps, i, input, a).AttemptFailed?)
      && TryOnce(gen, judge, steps, i, input, maxRetries) == AttemptFailed(s.lastError)
    decreases maxRetries - k
  {
    match TryOnce(gen, judge, steps, i, input, k)
    case Succeeded(out, rs) => StepCompleted(out, rs, k)
    case AttemptFailed(m) =>
      if k + 1 > maxRetries then Exhausted(m)
      else RunStep(gen, judge, steps, i, input, maxRetries, k + 1)
  }

  function Pow2(n: nat): (p: nat)
    ensures p >= 1
  {
    if n == 0 then 1 else 2 * Pow2(n - 1)
  }

  /** The sleep after the `r`-th failed attempt of a step, in seconds. */
  function Backoff(r: nat): real
    requires r >= 1
  {
    0.5 * Pow2(r - 1) as real
  }

  /** The sleeps after the first `n` failed attempts of a step. */
  function StepWaits(n: nat): (w: seq<real>)
    ensures |w| == n
    ensures forall j :: 0 <= j < n ==> w[j] == Backoff(j + 1)
  {
    if n == 0 then [] else StepWaits(n - 1) + [Backoff(n)]
  }

  /** One `chain_history` entry: the 1-based step, its input and the attempt. */
  datatype HistoryEntry = HistoryEntry(step: nat, input: string, retryAttempt: nat)

  function AttemptLog(i: nat, input: string, n: nat): (h: seq<HistoryEntry>)
    ensures |h| == n
    ensures forall a :: 0 <= a < n ==> h[a] == HistoryEntry(i + 1, input, a)
  {
    if n == 0 then [] else AttemptLog(i, input, n - 1) + [HistoryEntry(i + 1, input, n - 1)]
  }

  datatype StepResult = StepResult(step: nat, output: string, validationResults: seq<ValidationRecord>,
                                   retryCount: nat, outputLength: nat)

  /** The outcome of one sequential run together with what the run adds to the
      manager's history and the sleeps it would have taken. */
  datatype ChainRun =
    | ChainSucceeded(results: seq<StepResult>, finalOutput: string, history: seq<HistoryEntry>, waits: seq<real>)
    | ChainFailed(error: string, cause: string, partialResults: seq<StepResult>, history: seq<HistoryEntry>, waits: seq<real>)
  {
    function Completed(): seq<StepResult> {
      if ChainSucceeded? then results else partialResults
    }
  }

  const FailedAtStep: string := "Chain failed at step "
  const After: string := " after "
  const AttemptsColon: string := " attempts: "

  function FailureMessage(i: nat, maxRetries: nat, lastError: string): string {
    FailedAtStep + NatToString(i + 1) + After + NatToString(maxRetries + 1) + AttemptsColon + lastError
  }

  /** Puts a completed step in front of the rest of the run. */
  function Prepend(r: StepResult, h: seq<HistoryEntry>, w: seq<real>, rest: ChainRun): (run: ChainRun)
    ensures run.ChainSucceeded? == rest.ChainSucceeded?
    ensures run.Completed() == [r] + rest.Completed()
    ensures run.history == h + rest.history && run.waits == w + rest.waits
  {
    match rest
    case ChainSucceeded(rs, out, h', w') => ChainSucceeded([r] + rs, out, h + h', w + w')
    case ChainFailed(e, c, ps, h', w') => ChainFailed(e, c, [r] + ps, h + h', w + w')
  }

  /** The sequential executor from step `i` on, fed `input`. */
  function RunFrom(gen: Generator, judge: Judge, steps: seq<Step>, i: nat, input: string, maxRetries: nat): ChainRun
    requires i <= |steps|
    decreases |steps| - i
  {
    if i == |steps| then ChainSucceeded([], input, [], [])
    else
      match RunStep(gen, judge, steps, i, input, maxRetries, 0)
      case Exhausted(m) =>
        ChainFailed(FailureMessage(i, maxRetries, m), m, [], AttemptLog(i, input, maxRetries + 1), StepWaits(maxRetries))
      case StepCompleted(out, rs, f) =>
        Prepend(StepResult(i + 1, out, rs, f, |out|), AttemptLog(i, input, f + 1), StepWaits(f),
                RunFrom(gen, judge, steps, i + 1, out, maxRetries))
  }

  /** A step that completes puts its result in front of the rest of the run. */
  lemma RunFromCompleted(gen: Generator, judge: Judge, steps: seq<Step>, i: nat, input: string, maxRetries: nat)
    requires i < |steps| && RunStep(gen, judge, steps, i, input, maxRetries, 0).StepCompleted?
    ensures var s := RunStep(gen, judge, steps, i, input, maxRetries, 0);
      RunFrom(gen, judge, steps, i, input, maxRetries)
        == Prepend(StepResult(i + 1, s.output, s.records, s.failures, |s.output|),
                   AttemptLog(i, input, s.failures + 1), StepWaits(s.failures),
                   RunFrom(gen, judge, steps, i + 1, s.output, maxRetries))
  {
  }

  /** A step that exhausts its attempts ends the run with nothing completed. */
  lemma RunFromExhausted(gen: Generator, judge: Judge, steps: seq<Step>, i: nat, input: string, maxRetries: nat)
    requires i < |steps| && RunStep(gen, judge, steps, i, input, maxRetries, 0).Exhausted?
    ensures var run := RunFrom(gen, judge, steps, i, input, maxRetries);
      && run.ChainFailed? && run.partialResults == []
      && run.history == AttemptLog(i, input, maxRetries + 1)
      && run.waits == StepWaits(maxRetries)
  {
  }

  /** `execute_sequential_chain` seen from one run. The retry budget is any
      integer: with a negative one the attempt loop of every step is skipped,
      so the run succeeds at once with no results, no history and the
      initial input as its final output. */
  function RunChain(gen: Generator, judge: Judge, steps: seq<Step>, initialInput: string, maxRetries: int): (run: ChainRun)
    ensures maxRetries < 0 ==>
      && run.ChainSucceeded? && run.results == [] && run.finalOutput == initialInput
      && run.history == [] && run.waits == []
  {
    if maxRetries < 0 then ChainSucceeded([], initialInput, [], [])
    else RunFrom(gen, judge, steps, 0, initialInput, maxRetries)
  }

  /** The input step `j` of a run received: the previous step's output, or
      the run's own input for the first step. */
  function InputOf(input: string, rs: seq<StepResult>, j: nat): string
    requires j <= |rs|
  {
    if j == 0 then input else rs[j - 1].output
  }

  /** `r` is what step `idx` records when fed `inp`: its attempts before
      `r.retryCount` all failed, that attempt succeeded, and the count stays
      within the retry budget. */
  ghost predicate CompletedAt(gen: Generator, judge: Judge, steps: seq<Step>, idx: nat, inp: string, maxRetries: nat, r: StepResult)
    requires idx < |steps|
  {
    && r.step == idx + 1
    && r.retryCount <= maxRetries
    && r.outputLength == |r.output|
    && TryOnce(gen, judge, steps, idx, inp, r.retryCount) == Succeeded(r.output, r.validationResults)
    && forall a :: 0 <= a < r.retryCount ==> TryOnce(gen, judge, steps, idx, inp, a).AttemptFailed?
  }

  /** `rs` are the results of steps `i`, `i+1`, ... each fed the output of the
      one before. */
  ghost predicate Threaded(gen: Generator, judge: Judge, steps: seq<Step>, i: nat, input: string, maxRetries: nat, rs: seq<StepResult>)
    decreases |rs|
  {
    || |rs| == 0
    || (&& i < |steps|
        && CompletedAt(gen, judge, steps, i, input, maxRetries, rs[0])
        && Threaded(gen, judge, steps, i + 1, rs[0].output, maxRetries, rs[1..]))
  }

  /** The `j`-th of threaded results is what step `i + j` records when fed
      the run's input (for the first) or the output before it. */
  lemma {:induction false} ThreadedAt(gen: Generator, judge: Judge, steps: seq<Step>, i: nat, input: string, maxRetries: nat,
                                      rs: seq<StepResult>, j: nat)
    requires Threaded(gen, judge, steps, i, input, maxRetries, rs) && j < |rs|
    ensures i + j < |steps| && CompletedAt(gen, judge, steps, i + j, InputOf(input, rs, j), maxRetries, rs[j])
    decreases j
  {
    if j > 0 {
      var tail := rs[1..];
      ThreadedAt(gen, judge, steps, i + 1, rs[0].output, maxRetries, tail, j - 1);
      var idx, inp, r := i + 1 + (j - 1), InputOf(rs[0].output, tail, j - 1), tail[j - 1];
      assert idx == i + j && r == rs[j];
      assert inp == InputOf(input, rs, j);
    }
  }

  function SumRetries(rs: seq<StepResult>): nat {
    if |rs| == 0 then 0 else rs[0].retryCount + SumRetries(rs[1..])
  }

  /** Every one of the `maxRetries + 1` attempts of step `idx` fed `inp`
      failed, the last with `cause`. */
  ghost predicate ExhaustedAt(gen: Generator, judge: Judge, steps: seq<Step>, idx: nat, inp: string, maxRetries: nat, cause: string)
    requires idx < |steps|
  {
    && (forall a :: 0 <= a <= maxRetries ==> TryOnce(gen, judge, steps, idx, inp, a).AttemptFailed?)
    && TryOnce(gen, judge, steps, idx, inp, maxRetries) == AttemptFailed(cause)
  }

  /** A step that completes records what `CompletedAt` describes. */
  lemma FirstCompletedAt(gen: Generator, judge: Judge, steps: seq<Step>, i: nat, input: string, maxRetries: nat)
    requires i < |steps| && RunStep(gen, judge, steps, i, input, maxRetries, 0).StepCompleted?
    ensures var s := RunStep(gen, judge, steps, i, input, maxRetries, 0);
      CompletedAt(gen, judge, steps, i, input, maxRetries, StepResult(i + 1, s.output, s.records, s.failures, |s.output|))
  {
  }

  /** Results threaded from step `i + 1` on the first result's output extend
      to results threaded from step `i`. */
  lemma ThreadedCons(gen: Generator, judge: Judge, steps: seq<Step>, i: nat, input: string, maxRetries: nat,
                     r: StepResult, rs: seq<StepResult>)
    requires i < |steps| && CompletedAt(gen, judge, steps, i, input, maxRetries, r)
    requires Threaded(gen, judge, steps, i + 1, r.output, maxRetries, rs)
    ensures Threaded(gen, judge, steps, i, input, maxRetries, [r] + rs)
  {
    assert ([r] + rs)[1..] == rs;
  }

  /** A run's completed steps are numbered in order from `i + 1`, each fed the
      previous step's output and each within the retry budget. */
  lemma {:induction false} RunFromThreaded(gen: Generator, judge: Judge, steps: seq<Step>, i: nat, input: string, maxRetries: nat)
    requires i <= |steps|
    ensures Threaded(gen, judge, steps, i, input, maxRetries, RunFrom(gen, judge, steps, i, input, maxRetries).Completed())
    decreases |steps| - i
  {
    if i < |steps| {
      var s := RunStep(gen, judge, steps, i, input, maxRetries, 0);
      if s.StepCompleted? {
        var r := StepResult(i + 1, s.output, s.records, s.failures, |s.output|);
        var rest := RunFrom(gen, judge, steps, i + 1, s.output, maxRetries);
        assert RunFrom(gen, judge, steps, i, input, maxRetries)
          == Prepend(r, AttemptLog(i, input, s.failures + 1), StepWaits(s.failures), rest);
        RunFromThreaded(gen, judge, steps, i + 1, s.output, maxRetries);
        FirstCompletedAt(gen, judge, steps, i, input, maxRetries);
        assert RunFrom(gen, judge, steps, i, input, maxRetries).Completed() == [r] + rest.Completed();
        ThreadedCons(gen, judge, steps, i, input, maxRetries, r, rest.Completed());
      }
    }
  }

  /** A successful run has one result per step and hands on the last step's
      output (or the run's input when there are no steps). */
  lemma {:induction false} RunFromSucceeds(gen: Generator, judge: Judge, steps: seq<Step>, i: nat, input: string, maxRetries: nat)
    requires i <= |steps|
    ensures HandsOn(RunFrom(gen, judge, steps, i, input, maxRetries), input, |steps| - i)
    decreases |steps| - i
  {
    if i < |steps| {
      var s := RunStep(gen, judge, steps, i, input, maxRetries, 0);
      if s.Exhausted? {
        RunFromExhausted(gen, judge, steps, i, input, maxRetries);
      } else {
        RunFromSucceeds(gen, judge, steps, i + 1, s.output, maxRetries);
        CompletedHandsOn(gen, judge, steps, i, input, maxRetries);
      }
    }
  }

  /** A completed step passes the hand-on property of the rest of the chain
      back to the chain from that step. */
  lemma CompletedHandsOn(gen: Generator, judge: Judge, steps: seq<Step>, i: nat, input: string, maxRetries: nat)
    requires i < |steps| && RunStep(gen, judge, steps, i, input, maxRetries, 0).StepCompleted?
    requires HandsOn(RunFrom(gen, judge, steps, i + 1, RunStep(gen, judge, steps, i, input, maxRetries, 0).output, maxRetries),
                     RunStep(gen, judge, steps, i, input, maxRetries, 0).output, |steps| - i - 1)
    ensures HandsOn(RunFrom(gen, judge, steps, i, input, maxRetries), input, |steps| - i)
  {
    var s := RunStep(gen, judge, steps, i, input, maxRetries, 0);
    var r := StepResult(i + 1, s.output, s.records, s.failures, |s.output|);
    RunFromCompleted(gen, judge, steps, i, input, maxRetries);
    PrependHandsOn(input, r, AttemptLog(i, input, s.failures + 1), StepWaits(s.failures),
                   RunFrom(gen, judge, steps, i + 1, s.output, maxRetries), |steps| - i - 1);
  }

  /** A successful run fed `input` through `n` steps has one result per step,
      and its final output is the last step's output, or `input` itself when
      there are no steps. */
  predicate HandsOn(run: ChainRun, input: string, n: nat) {
    run.ChainSucceeded? ==> |run.results| == n && run.finalOutput == InputOf(input, run.results, |run.results|)
  }

  /** A completed step in front of a rest fed its output hands that output on. */
  lemma PrependHandsOn(input: string, r: StepResult, h: seq<HistoryEntry>, w: seq<real>, rest: ChainRun, n: nat)
    requires HandsOn(rest, r.output, n)
    ensures HandsOn(Prepend(r, h, w, rest), input, n + 1)
  {
    if rest.ChainSucceeded? {
      var rs := rest.results;
      if |rs| > 0 {
        assert InputOf(input, [r] + rs, |[r] + rs|) == InputOf(r.output, rs, |rs|);
      }
    }
  }

  /** `run` failed at the step after its completed ones, counted from step
      `i` fed `input`: that step used up all its attempts, and the error
      names the step, the attempt count and the last attempt's error. */
  ghost predicate FailedAfter(gen: Generator, judge: Judge, steps: seq<Step>, i: nat, input: string, maxRetries: nat, run: ChainRun)
    requires run.ChainFailed?
  {
    && i + |run.partialResults| < |steps|
    && ExhaustedAt(gen, judge, steps, i + |run.partialResults|,
                   InputOf(input, run.partialResults, |run.partialResults|), maxRetries, run.cause)
    && run.error == FailureMessage(i + |run.partialResults|, maxRetries, run.cause)
  }

  /** A failure after the steps from `i + 1` on, fed the output of a result
      for step `i`, is a failure after the steps from `i` on once that result
      is prepended. */
  lemma FailedAfterCons(gen: Generator, judge: Judge, steps: seq<Step>, i: nat, input: string, maxRetries: nat,
                        r: StepResult, h: seq<HistoryEntry>, w: seq<real>, rest: ChainRun)
    requires rest.ChainFailed? && FailedAfter(gen, judge, steps, i + 1, r.output, maxRetries, rest)
    ensures Prepend(r, h, w, rest).ChainFailed?
    ensures FailedAfter(gen, judge, steps, i, input, maxRetries, Prepend(r, h, w, rest))
  {
    var ps := rest.partialResults;
    assert Prepend(r, h, w, rest).partialResults == [r] + ps;
    assert InputOf(input, [r] + ps, |[r] + ps|) == InputOf(r.output, ps, |ps|);
  }

  /** A failed run stopped at the step after its completed ones: that step
      used up all its attempts, and the error names the step, the attempt
      count and the last attempt's error. */
  lemma {:induction false} RunFromFails(gen: Generator, judge: Judge, steps: seq<Step>, i: nat, input: string, maxRetries: nat)
    requires i <= |steps|
    requires RunFrom(gen, judge, steps, i, input, maxRetries).ChainFailed?
    ensures FailedAfter(gen, judge, steps, i, input, maxRetries, RunFrom(gen, judge, steps, i, input, maxRetries))
    decreases |steps| - i
  {
    var s := RunStep(gen, judge, steps, i, input, maxRetries, 0);
    if s.StepCompleted? {
      var r := StepResult(i + 1, s.output, s.records, s.failures, |s.output|);
      var rest := RunFrom(gen, judge, steps, i + 1, s.output, maxRetries);
      assert RunFrom(gen, judge, steps, i, input, maxRetries)
        == Prepend(r, AttemptLog(i, input, s.failures + 1), StepWaits(s.failures), rest);
      assert rest.ChainFailed?;
      RunFromFails(gen, judge, steps, i + 1, s.output, maxRetries);
      FailedAfterCons(gen, judge, steps, i, input, maxRetries, r, AttemptLog(i, input, s.failures + 1), StepWaits(s.failures), rest);
    }
  }

  /** The history gains one entry per attempt, and one sleep follows every
      failed attempt except a step's last allowed one. */
  lemma {:induction false} RunFromCounts(gen: Generator, judge: Judge, steps: seq<Step>, i: nat, input: string, maxRetries: nat)
    requires i <= |steps|
    ensures CountsAgree(RunFrom(gen, judge, steps, i, input, maxRetries), maxRetries)
    decreases |steps| - i
  {
    if i < |steps| {
      var s := RunStep(gen, judge, steps, i, input, maxRetries, 0);
      if s.Exhausted? {
        RunFromExhausted(gen, judge, steps, i, input, maxRetries);
      } else {
        RunFromCounts(gen, judge, steps, i + 1, s.output, maxRetries);
        CompletedCounts(gen, judge, steps, i, input, maxRetries);
      }
    }
  }

  /** A completed step passes the attempt counts of the rest of the chain
      back to the chain from that step. */
  lemma CompletedCounts(gen: Generator, judge: Judge, steps: seq<Step>, i: nat, input: string, maxRetries: nat)
    requires i < |steps| && RunStep(gen, judge, steps, i, input, maxRetries, 0).StepCompleted?
    ensures CountsAgree(RunFrom(gen, judge, steps, i + 1, RunStep(gen, judge, steps, i, input, maxRetries, 0).output, maxRetries),
                        maxRetries) ==>
      CountsAgree(RunFrom(gen, judge, steps, i, input, maxRetries), maxRetries)
  {
    var s := RunStep(gen, judge, steps, i, input, maxRetries, 0);
    var r := StepResult(i + 1, s.output, s.records, s.failures, |s.output|);
    var rest := RunFrom(gen, judge, steps, i + 1, s.output, maxRetries);
    if CountsAgree(rest, maxRetries) {
      RunFromCompleted(gen, judge, steps, i, input, maxRetries);
      PrependCounts(r, AttemptLog(i, input, s.failures + 1), StepWaits(s.failures), rest, maxRetries);
    }
  }

  /** The history holds one entry per attempt: each completed step's failed
      attempts and its successful one, and all attempts of a step that failed
      the run; a sleep follows each failed attempt but a failing step's last. */
  predicate CountsAgree(run: ChainRun, maxRetries: nat) {
    && |run.history| == SumRetries(run.Completed()) + |run.Completed()| + (if run.ChainFailed? then maxRetries + 1 else 0)
    && |run.waits| == SumRetries(run.Completed()) + (if run.ChainFailed? then maxRetries else 0)
  }

  lemma PrependCounts(r: StepResult, h: seq<HistoryEntry>, w: seq<real>, rest: ChainRun, maxRetries: nat)
    requires |h| == r.retryCount + 1 && |w| == r.retryCount && CountsAgree(rest, maxRetries)
    ensures CountsAgree(Prepend(r, h, w, rest), maxRetries)
  {
    var run := Prepend(r, h, w, rest);
    assert run.Completed()[1..] == rest.Completed();
  }

  /** Every validation result a run records passed. */
  lemma RecordedValidationsPassed(gen: Generator, judge: Judge, steps: seq<Step>, initialInput: string, maxRetries: nat)
    ensures var rs := RunChain(gen, judge, steps, initialInput, maxRetries).Completed();
      forall j, v :: 0 <= j < |rs| && v in rs[j].validationResults ==> v.passed
  {
    var rs := RunChain(gen, judge, steps, initialInput, maxRetries).Completed();
    RunFromThreaded(gen, judge, steps, 0, initialInput, maxRetries);
    forall j, v | 0 <= j < |rs| && v in rs[j].validationResults
      ensures v.passed
    {
      ThreadedAt(gen, judge, steps, 0, initialInput, maxRetries, rs, j);
      var out := gen(j, InputOf(initialInput, rs, j), rs[j].retryCount).text;
      assert Validate(judge, steps[j], j, out) == Passed(rs[j].validationResults);
    }
  }

  /** Each log entry the manager keeps for a run. */
  datatype LogEntry = LogSuccess(stepsCompleted: nat) | LogFailure(error: string, step: nat, totalRetries: int)

  /** A `PromptChainManager`: its retry budget and the history, step timings
      and execution log it accumulates across runs (none of them is ever
      cleared). A step timing records the 1-based number of a completed step;
      its duration is wall-clock time and not part of this model. */
  datatype Manager = Manager(maxRetries: int, chainHistory: seq<HistoryEntry>, stepTimings: seq<nat>, executionLog: seq<LogEntry>)

  function NewManager(maxRetries: int): Manager {
    Manager(maxRetries, [], [], [])
  }

  function StepNumbers(rs: seq<StepResult>): (ns: seq<nat>)
    ensures |ns| == |rs| && forall j :: 0 <= j < |rs| ==> ns[j] == rs[j].step
  {
    seq(|rs|, j requires 0 <= j < |rs| => rs[j].step)
  }

  datatype Execution = Execution(manager: Manager, run: ChainRun)

  /** `execute_sequential_chain`: one run plus the manager's bookkeeping. */
  function ExecuteSequentialChain(m: Manager, steps: seq<Step>, initialInput: string, gen: Generator, judge: Judge): (e: Execution)
    ensures e.run == RunChain(gen, judge, steps, initialInput, m.maxRetries)
    ensures e.manager.maxRetries == m.maxRetries
    ensures e.manager.chainHistory == m.chainHistory + e.run.history
    ensures |e.manager.stepTimings| == |m.stepTimings| + |e.run.Completed()|
    ensures |e.manager.executionLog| == |m.executionLog| + 1
  {
    var run := RunChain(gen, judge, steps, initialInput, m.maxRetries);
    var entry := match run
      case ChainSucceeded(_, _, _, _) => LogSuccess(|steps|)
      case ChainFailed(_, cause, ps, _, _) => LogFailure(cause, |ps| + 1, m.maxRetries);
    Execution(Manager(m.maxRetries, m.chainHistory + run.history, m.stepTimings + StepNumbers(run.Completed()),
                      m.executionLog + [entry]), run)
  }

  /** The part of `get_summary` that does not depend on the clock. */
  function TotalSteps(m: Manager): nat {
    |m.stepTimings|
  }

  /** A generator that appends "!" to whatever it is fed. */
  function AppendBang(i: nat, input: string, k: nat): Generation {
    Generated(input + "!")
  }

  /** A generator that always answers "y". */
  function AnswerY(i: nat, input: string, k: nat): Generation {
    Generated("y")
  }

  /** A judge whose validators reject every output. */
  function RejectAll(v: Validator, output: string): Ruling {
    Refuses
  }

  /** The run the documentation walks through first: a three-step chain
      whose generator appends "!" hands each output on to the next step. */
  lemma ExampleThreeSteps()
    ensures var plain := Step("t", None, None);
      var run := RunChain(AppendBang, RejectAll, [plain, plain, plain], "x", 3);
      && run.ChainSucceeded?
      && |run.results| == 3
      && run.results[0].output == "x" + "!" && run.results[1].output == "x" + "!" + "!"
      && run.finalOutput == "x" + "!" + "!" + "!"
      && |run.history| == 3
  {
    var plain := Step("t", None, None);
    var steps := [plain, plain, plain];
    var x1 := "x" + "!";
    var x2 := x1 + "!";
    var x3 := x2 + "!";
    PlainStepAppends(steps, 0, "x");
    PlainStepAppends(steps, 1, x1);
    PlainStepAppends(steps, 2, x2);
    RunFromCompleted(AppendBang, RejectAll, steps, 0, "x", 3);
    RunFromCompleted(AppendBang, RejectAll, steps, 1, x1, 3);
    RunFromCompleted(AppendBang, RejectAll, steps, 2, x2, 3);
    var r3 := RunFrom(AppendBang, RejectAll, steps, 2, x2, 3);
    var r2 := RunFrom(AppendBang, RejectAll, steps, 1, x1, 3);
    assert r3.results == [StepResult(3, x3, [], 0, |x3|)] && r3.finalOutput == x3;
    assert r2.results == [StepResult(2, x2, [], 0, |x2|)] + r3.results;
  }

  /** A step with no validators run with the appending generator completes
      on its first attempt. */
  lemma PlainStepAppends(steps: seq<Step>, j: nat, input: string)
    requires j < |steps| && steps[j].validators.None? && steps[j].validator.None?
    ensures RunStep(AppendBang, RejectAll, steps, j, input, 3, 0) == StepCompleted(input + "!", [], 0)
  {
    assert TryOnce(AppendBang, RejectAll, steps, j, input, 0) == Succeeded(input + "!", []);
  }

  /** The second documented run: a one-step chain whose validator always
      rejects gives up after three attempts, sleeping 0.5 s and then 1 s. */
  lemma ExampleValidatorExhausted()
    ensures var run := RunChain(AnswerY, RejectAll, [Step("t", None, Some(0))], "x", 2);
      && run.ChainFailed?
      && run.partialResults == []
      && |run.history| == 3
      && run.waits == [0.5, 1.0]
      && run.error == "Chain failed at step " + "1" + " after " + "3" + " attempts: " + "Step " + "1" + " validation failed"
  {
    var steps := [Step("t", None, Some(0))];
    var msg := DefaultRejection(0);
    RejectAllExhausts();
    ExhaustedMessage();
    assert StepWaits(2) == [Backoff(1), Backoff(2)];
  }

  /** Every attempt of the rejecting step fails with the same message. */
  lemma RejectAllExhausts()
    ensures RunStep(AnswerY, RejectAll, [Step("t", None, Some(0))], 0, "x", 2, 0) == Exhausted(DefaultRejection(0))
  {
    var steps := [Step("t", None, Some(0))];
    var msg := DefaultRejection(0);
    assert Validate(RejectAll, steps[0], 0, "y") == Rejected(msg);
    assert TryOnce(AnswerY, RejectAll, steps, 0, "x", 2) == AttemptFailed(msg);
    assert TryOnce(AnswerY, RejectAll, steps, 0, "x", 1) == AttemptFailed(msg);
    assert TryOnce(AnswerY, RejectAll, steps, 0, "x", 0) == AttemptFailed(msg);
    assert RunStep(AnswerY, RejectAll, steps, 0, "x", 2, 0) == Exhausted(msg);
    assert RunStep(AnswerY, RejectAll, steps, 0, "x", 2, 1) == Exhausted(msg);
  }

  /** The failure message of the first step after three attempts. */
  lemma ExhaustedMessage()
    ensures FailureMessage(0, 2, DefaultRejection(0))
         == "Chain failed at step " + "1" + " after " + "3" + " attempts: " + "Step " + "1" + " validation failed"
  {
    assert NatToString(1) == "1" && NatToString(3) == "3";
  }

  /** `validate_summary_length`: at most `maxWords` whitespace-separated words. */
  function ValidateSummaryLength(text: string, maxWords: int): (ok: bool)
    ensures ok <==> CountWordStarts(text, true) <= maxWords
  {
    WordCountIsStarts(text);
    WordCount(text) <= maxWords
  }

  const BulletMarkers: seq<string> := ["\U{2022}", "-", "*", "1.", "2.", "3."]

  /** The line, stripped, begins with one of the bullet or numbering markers. */
  predicate HasBulletMarker(line: string) {
    exists c :: c in BulletMarkers && StartsWith(Strip(line), c)
  }

  /** Some line of `lines`, stripped, begins with a marker. */
  predicate AnyBulletLine(lines: seq<string>) {
    exists line :: line in lines && HasBulletMarker(line)
  }

  /** `validate_bullet_format`: the text is split on newlines after an outer
      `strip()`; it passes when some line begins, after its own blanks, with
      a marker. The outer strip makes no difference: the verdict is the same
      on the raw lines of the text. */
  function ValidateBulletFormat(text: string): (ok: bool)
    ensures ok <==> AnyBulletLine(Split(text, '\n'))
  {
    BulletLinesIgnoreStrip(text);
    AnyBulletLine(Split(Strip(text), '\n'))
  }

  /** Joining two texts with a newline passes exactly when one of them does. */
  lemma BulletJoin(a: string, b: string)
    ensures ValidateBulletFormat(a + "\n" + b) <==> ValidateBulletFormat(a) || ValidateBulletFormat(b)
  {
    SplitConcat(a, b, '\n');
    assert a + "\n" + b == a + ['\n'] + b;
    AnyBulletConcat(Split(a, '\n'), Split(b, '\n'));
  }

  /** A text in which no marker occurs anywhere fails. */
  lemma BulletNeedsMarker(text: string)
    requires forall m :: m in BulletMarkers ==> !Contains(text, m)
    ensures !ValidateBulletFormat(text)
  {
    if ValidateBulletFormat(text) {
      var line :| line in Split(text, '\n') && HasBulletMarker(line);
      var m :| m in BulletMarkers && StartsWith(Strip(line), m);
      SplitPiecesContained(text, '\n');
      StripContained(line);
      ContainsAt(Strip(line), m, 0);
      ContainsTrans(line, Strip(line), m);
      ContainsTrans(text, line, m);
    }
  }

  /** A line that is empty or blank carries no marker. */
  lemma BlankLineNoMarker(line: string)
    requires forall i :: 0 <= i < |line| ==> IsSpace(line[i])
    ensures !HasBulletMarker(line)
  {
    StripEmpty(line);
  }

  /** A leading or trailing blank leaves the marker verdict of the lines unchanged. */
  lemma {:induction false} BulletLinesIgnoreStrip(s: string)
    ensures AnyBulletLine(Split(Strip(s), '\n')) <==> AnyBulletLine(Split(s, '\n'))
  {
    BulletLinesTrimRight(TrimLeft(s));
    BulletLinesTrimLeft(s);
  }

  lemma {:induction false} BulletLinesTrimLeft(s: string)
    ensures AnyBulletLine(Split(TrimLeft(s), '\n')) <==> AnyBulletLine(Split(s, '\n'))
    decreases |s|
  {
    if |s| > 0 && IsSpace(s[0]) {
      BulletLinesTrimLeft(s[1..]);
      BulletLinesConsSpace(s[0], s[1..]);
      assert [s[0]] + s[1..] == s;
    }
  }

  lemma {:induction false} BulletLinesTrimRight(s: string)
    ensures AnyBulletLine(Split(TrimRight(s), '\n')) <==> AnyBulletLine(Split(s, '\n'))
    decreases |s|
  {
    if |s| > 0 && IsSpace(s[|s| - 1]) {
      var init := s[..|s| - 1];
      BulletLinesTrimRight(init);
      BulletLinesSnocSpace(init, s[|s| - 1]);
      assert init + [s[|s| - 1]] == s;
    }
  }

  /** A marker line in a concatenation of line lists is one in either part. */
  lemma AnyBulletConcat(A: seq<string>, B: seq<string>)
    ensures AnyBulletLine(A + B) <==> AnyBulletLine(A) || AnyBulletLine(B)
  {
    if AnyBulletLine(A + B) {
      var line :| line in A + B && HasBulletMarker(line);
      assert line in A || line in B;
    }
  }

  /** Two line lists whose lines agree, index by index, on carrying a marker. */
  lemma AnyBulletPointwise(A: seq<string>, B: seq<string>)
    requires |A| == |B|
    requires forall i :: 0 <= i < |A| ==> (HasBulletMarker(A[i]) <==> HasBulletMarker(B[i]))
    ensures AnyBulletLine(A) <==> AnyBulletLine(B)
  {
    if AnyBulletLine(A) {
      var line :| line in A && HasBulletMarker(line);
      var i :| 0 <= i < |A| && A[i] == line;
      assert B[i] in B;
    }
    if AnyBulletLine(B) {
      var line :| line in B && HasBulletMarker(line);
      var i :| 0 <= i < |B| && B[i] == line;
      assert A[i] in A;
    }
  }

  /** One leading blank character. */
  lemma BulletLinesConsSpace(c: char, x: string)
    requires IsSpace(c)
    ensures AnyBulletLine(Split([c] + x, '\n')) <==> AnyBulletLine(Split(x, '\n'))
  {
    SplitCons(c, x, '\n');
    if c == '\n' {
      BulletLinesConsNewline(Split(x, '\n'));
    } else {
      BulletLinesConsBlank(Split([c] + x, '\n'), Split(x, '\n'), c);
    }
  }

  lemma BulletLinesConsNewline(R: seq<string>)
    ensures AnyBulletLine([""] + R) <==> AnyBulletLine(R)
  {
    BlankLineNoMarker("");
    AnyBulletConcat([""], R);
  }

  lemma BulletLinesConsBlank(L: seq<string>, R: seq<string>, c: char)
    requires IsSpace(c) && |L| == |R| > 0 && L[0] == [c] + R[0]
    requires forall i :: 0 < i < |R| ==> L[i] == R[i]
    ensures AnyBulletLine(L) <==> AnyBulletLine(R)
  {
    StripConsSpace(c, R[0]);
    SameMarker(L[0], R[0]);
    AnyBulletPointwise(L, R);
  }

  /** One trailing blank character. */
  lemma BulletLinesSnocSpace(x: string, c: char)
    requires IsSpace(c)
    ensures AnyBulletLine(Split(x + [c], '\n')) <==> AnyBulletLine(Split(x, '\n'))
  {
    var A := Split(x, '\n');
    SplitAppend(x, [c], '\n');
    assert [c][1..] == [] && Split([], '\n') == [""];
    if c == '\n' {
      BulletLinesSnocNewline(A);
    } else {
      assert [c] + "" == [c];
      BulletLinesSnocBlank(A, c);
    }
  }

  lemma BulletLinesSnocNewline(A: seq<string>)
    requires |A| > 0
    ensures AnyBulletLine(Fuse(A, ["", ""])) <==> AnyBulletLine(A)
  {
    var n := |A| - 1;
    assert A[n] + "" == A[n] && A[..n] + [A[n]] == A;
    assert Fuse(A, ["", ""]) == A + [""];
    BlankLineNoMarker("");
    AnyBulletConcat(A, [""]);
  }

  lemma BulletLinesSnocBlank(A: seq<string>, c: char)
    requires |A| > 0 && IsSpace(c)
    ensures AnyBulletLine(Fuse(A, [[c]])) <==> AnyBulletLine(A)
  {
    FuseLast(A, [c]);
    BulletLinesLastBlank(Fuse(A, [[c]]), A, c);
  }

  lemma BulletLinesLastBlank(F: seq<string>, A: seq<string>, c: char)
    requires IsSpace(c) && |F| == |A| > 0 && F[|A| - 1] == A[|A| - 1] + [c]
    requires forall i :: 0 <= i < |A| - 1 ==> F[i] == A[i]
    ensures AnyBulletLine(F) <==> AnyBulletLine(A)
  {
    var n := |A| - 1;
    StripSnocSpace(A[n], c);
    forall i | 0 <= i < |A|
      ensures HasBulletMarker(F[i]) <==> HasBulletMarker(A[i])
    {
      if i == n {
        SameMarker(F[n], A[n]);
      } else {
        assert F[i] == A[i];
      }
    }
    AnyBulletPointwise(F, A);
  }

  /** Lines that strip to the same text agree on carrying a marker. */
  lemma SameMarker(a: string, b: string)
    requires Strip(a) == Strip(b)
    ensures HasBulletMarker(a) <==> HasBulletMarker(b)
  {
  }
}
