/** The cost tracker: prices per million tokens for three models, one usage
    record per request, and a running total.

    Prices and costs are exact reals; the tracker's floats and their
    rounding are not modelled. The timestamp of a record is supplied by the
    caller. */
module Cost {
  import opened Wrappers

  datatype Pricing = Pricing(input: real, output: real)

  const DefaultModel: string := "gpt-4o-mini"

  /** `MODEL_PRICING`, dollars per million tokens. */
  function ModelPricing(model: string): Option<Pricing> {
    if model == "gpt-4o-mini" then Some(Pricing(0.15, 0.60))
    else if model == "gpt-3.5-turbo" then Some(Pricing(0.5, 1.5))
    else if model == "gpt-4" then Some(Pricing(30.0, 60.0))
    else None
  }

  /** The model a request is billed as: an unknown model is billed as the
      default one. */
  function BilledModel(model: string): (m: string)
    ensures ModelPricing(m).Some?
    ensures ModelPricing(model).Some? ==> m == model
    ensures ModelPricing(model).None? ==> m == DefaultModel
  {
    if ModelPricing(model).Some? then model else DefaultModel
  }

  datatype UsageRecord = UsageRecord(
    timestamp: string,
    technique: string,
    model: string,
    inputTokens: int,
    outputTokens: int,
    inputCost: real,
    outputCost: real,
    totalCost: real)

  /** `tokens / 1_000_000 * price`. */
  function TokenCost(tokens: int, price: real): real {
    tokens as real / 1000000.0 * price
  }

  /** The record `track_usage` appends for one request. */
  function Record(timestamp: string, technique: string, model: string, inputTokens: int, outputTokens: int): (r: UsageRecord)
    ensures r.model == BilledModel(model)
    ensures r.totalCost == r.inputCost + r.outputCost
    ensures inputTokens >= 0 && outputTokens >= 0 ==> r.inputCost >= 0.0 && r.outputCost >= 0.0 && r.totalCost >= 0.0
  {
    var m := BilledModel(model);
    var p := ModelPricing(m).value;
    var i := TokenCost(inputTokens, p.input);
    var o := TokenCost(outputTokens, p.output);
    UsageRecord(timestamp, technique, m, inputTokens, outputTokens, i, o, i + o)
  }

  function SumCosts(rs: seq<UsageRecord>): real {
    if |rs| == 0 then 0.0 else SumCosts(rs[..|rs| - 1]) + rs[|rs| - 1].totalCost
  }

  function SumInput(rs: seq<UsageRecord>): int {
    if |rs| == 0 then 0 else SumInput(rs[..|rs| - 1]) + rs[|rs| - 1].inputTokens
  }

  function SumOutput(rs: seq<UsageRecord>): int {
    if |rs| == 0 then 0 else SumOutput(rs[..|rs| - 1]) + rs[|rs| - 1].outputTokens
  }

  datatype Tracker = Tracker(sessionName: string, records: seq<UsageRecord>, totalCost: real) {
    /** The running total is the sum of the recorded costs. */
    predicate Valid() {
      totalCost == SumCosts(records)
    }
  }

  function NewTracker(sessionName: string): (t: Tracker)
    ensures t.Valid() && |t.records| == 0 && t.totalCost == 0.0
  {
    Tracker(sessionName, [], 0.0)
  }

  datatype Tracked = Tracked(tracker: Tracker, cost: real)

  /** `track_usage`: appends one record and adds its cost to the total. */
  function TrackUsage(t: Tracker, timestamp: string, technique: string, model: string,
                      inputTokens: int, outputTokens: int): (r: Tracked)
    ensures r.tracker.records == t.records + [Record(timestamp, technique, model, inputTokens, outputTokens)]
    ensures r.tracker.sessionName == t.sessionName
    ensures r.cost == r.tracker.records[|t.records|].totalCost
    ensures r.tracker.totalCost == t.totalCost + r.cost
    ensures t.Valid() ==> r.tracker.Valid()
  {
    var rec := Record(timestamp, technique, model, inputTokens, outputTokens);
    var records := t.records + [rec];
    assert records[..|records| - 1] == t.records;
    Tracked(Tracker(t.sessionName, records, t.totalCost + rec.totalCost), rec.totalCost)
  }

  /** A request's cost is the input price times input tokens plus the output
      price times output tokens, per million, at the billed model's prices. */
  lemma RequestCost(timestamp: string, technique: string, model: string, inputTokens: int, outputTokens: int)
    ensures var r := Record(timestamp, technique, model, inputTokens, outputTokens);
      var p := ModelPricing(BilledModel(model)).value;
      r.totalCost * 1000000.0 == inputTokens as real * p.input + outputTokens as real * p.output
  {
  }

  /** An unknown model costs the same as the default model and is recorded
      under the default model's name. */
  lemma UnknownModelBilledAsDefault(timestamp: string, technique: string, model: string, i: int, o: int)
    requires ModelPricing(model).None?
    ensures Record(timestamp, technique, model, i, o) == Record(timestamp, technique, DefaultModel, i, o)
  {
  }

  datatype Summary = Summary(
    session: string,
    totalRequests: nat,
    totalCost: real,
    totalInputTokens: Option<int>,
    totalOutputTokens: Option<int>,
    totalTokens: int,
    techniquesUsed: set<string>)

  /** `get_session_summary`; an empty session reports no per-direction totals
      and no techniques. The technique list comes from a set, so its order is
      not modelled. */
  function SessionSummary(t: Tracker): (s: Summary)
    ensures s.session == t.sessionName && s.totalRequests == |t.records|
    ensures |t.records| == 0 ==> s.totalCost == 0.0 && s.totalTokens == 0 && s.totalInputTokens.None?
    ensures |t.records| > 0 ==>
      && s.totalCost == t.totalCost
      && s.totalInputTokens == Some(SumInput(t.records))
      && s.totalOutputTokens == Some(SumOutput(t.records))
      && s.totalTokens == SumInput(t.records) + SumOutput(t.records)
    ensures forall x :: x in s.techniquesUsed <==> exists r :: r in t.records && r.technique == x
  {
    if |t.records| == 0 then Summary(t.sessionName, 0, 0.0, None, None, 0, {})
    else
      var i, o := SumInput(t.records), SumOutput(t.records);
      Summary(t.sessionName, |t.records|, t.totalCost, Some(i), Some(o), i + o,
              set r | r in t.records :: r.technique)
  }

  /** A sequence of requests on a fresh tracker. */
  datatype Request = Request(timestamp: string, technique: string, model: string, inputTokens: int, outputTokens: int)

  function TrackAll(t: Tracker, rs: seq<Request>): (t': Tracker)
    ensures |t'.records| == |t.records| + |rs|
    ensures t'.sessionName == t.sessionName
    ensures t.Valid() ==> t'.Valid()
  {
    if |rs| == 0 then t
    else
      var last := rs[|rs| - 1];
      TrackUsage(TrackAll(t, rs[..|rs| - 1]), last.timestamp, last.technique, last.model,
                 last.inputTokens, last.outputTokens).tracker
  }

  /** After any sequence of requests the summary counts every request, its
      total cost is the sum of the request costs, and it is never negative
      when no token count is. */
  lemma {:induction false} SummaryAfterRequests(name: string, rs: seq<Request>)
    requires forall r :: r in rs ==> r.inputTokens >= 0 && r.outputTokens >= 0
    ensures var t := TrackAll(NewTracker(name), rs);
      && SessionSummary(t).totalRequests == |rs|
      && SessionSummary(t).totalCost == SumCosts(t.records)
      && SessionSummary(t).totalCost >= 0.0
      && SessionSummary(t).totalTokens >= 0
  {
    var t := TrackAll(NewTracker(name), rs);
    RecordsNonNegative(name, rs);
  }

  lemma {:induction false} RecordsNonNegative(name: string, rs: seq<Request>)
    requires forall r :: r in rs ==> r.inputTokens >= 0 && r.outputTokens >= 0
    ensures var t := TrackAll(NewTracker(name), rs);
      SumCosts(t.records) >= 0.0 && SumInput(t.records) >= 0 && SumOutput(t.records) >= 0
  {
    if |rs| > 0 {
      var init := TrackAll(NewTracker(name), rs[..|rs| - 1]);
      assert forall r :: r in rs[..|rs| - 1] ==> r in rs;
      RecordsNonNegative(name, rs[..|rs| - 1]);
      var last := rs[|rs| - 1];
      assert last in rs;
      var recs := TrackAll(NewTracker(name), rs).records;
      assert recs == init.records + [Record(last.timestamp, last.technique, last.model, last.inputTokens, last.outputTokens)];
      assert recs[..|recs| - 1] == init.records;
    }
  }
}
