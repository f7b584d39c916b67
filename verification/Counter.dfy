/** `CounterDeltaRateProcessor`: turns two samples of a cumulative counter into a delta and an
    optional rate, with one explicit rule for counters that wrap around. */
module Counter {
  import opened Base
  import opened Domain

  datatype WrapRule = WrapRule(modulus: uint64, minimumPrevious: uint64, maximumCurrent: uint64)

  predicate ValidRule(r: WrapRule) {
    && 2 <= r.modulus && r.minimumPrevious < r.modulus && r.maximumCurrent < r.modulus
    && r.maximumCurrent < r.minimumPrevious
  }

  datatype Output = Output(metric: uint32, version: uint32)

  datatype Config = Config(
    id: string,
    version: uint32,
    input: Output,
    delta: Output,
    rate: Option<Output>,
    minimumInterval: int,
    maximumGap: int,
    wrap: Option<WrapRule>)

  predicate ValidConfig(c: Config) {
    && c.id != "" && c.version != 0 && c.input.metric != 0 && c.input.version != 0
    && c.delta.metric != 0 && c.delta.version != 0 && c.input.metric != c.delta.metric
    && 0 < c.minimumInterval <= c.maximumGap
    && (c.rate.Some? ==>
          && c.rate.value.metric != 0 && c.rate.value.version != 0
          && c.rate.value.metric != c.input.metric && c.rate.value.metric != c.delta.metric)
    && (c.wrap.Some? ==> ValidRule(c.wrap.value))
  }

  datatype Context = Context(entity: EntityRef, generation: uint64, evaluatedTime: int, depth: uint8)

  predicate ValidContext(x: Context) {
    && x.entity.kind.Device? && x.entity.generation != 0 && x.generation != 0
    && 0 <= x.evaluatedTime && 1 <= x.depth <= 4
  }

  // ----- The integer delta -----

  predicate WrapsIn(wrap: Option<WrapRule>, old_: uint64, new_: uint64) {
    && wrap.Some? && wrap.value.minimumPrevious <= old_ < wrap.value.modulus
    && new_ <= wrap.value.maximumCurrent
  }

  /** The delta in 64-bit arithmetic; `None` is a detected reset. */
  function Delta(wrap: Option<WrapRule>, old_: uint64, new_: uint64): Option<uint64>
    requires wrap.Some? ==> ValidRule(wrap.value)
  {
    if old_ <= new_ then Some(new_ - old_)
    else if WrapsIn(wrap, old_, new_) then Some((wrap.value.modulus - old_) + new_)
    else None
  }

  /** The number of wraps a pair of samples shows. */
  function Wraps(old_: uint64, new_: uint64): nat { if old_ <= new_ then 0 else 1 }

  ghost predicate Accepted(wrap: Option<WrapRule>, vs: seq<uint64>)
    requires wrap.Some? ==> ValidRule(wrap.value)
  {
    forall i :: 0 < i < |vs| ==> Delta(wrap, vs[i - 1], vs[i]).Some?
  }

  function SumDeltas(wrap: Option<WrapRule>, vs: seq<uint64>): nat
    requires (wrap.Some? ==> ValidRule(wrap.value)) && Accepted(wrap, vs)
  {
    if |vs| <= 1 then 0
    else SumDeltas(wrap, vs[..|vs| - 1]) + Delta(wrap, vs[|vs| - 2], vs[|vs| - 1]).value
  }

  function SumWraps(vs: seq<uint64>): nat {
    if |vs| <= 1 then 0 else SumWraps(vs[..|vs| - 1]) + Wraps(vs[|vs| - 2], vs[|vs| - 1])
  }

  function Modulus(wrap: Option<WrapRule>): nat { if wrap.Some? then wrap.value.modulus else 0 }

  lemma {:induction false} DeltaIs(wrap: Option<WrapRule>, a: uint64, b: uint64)
    requires (wrap.Some? ==> ValidRule(wrap.value)) && Delta(wrap, a, b).Some?
    ensures Delta(wrap, a, b).value == b - a + if Wraps(a, b) == 0 then 0 else Modulus(wrap)
  {}

  lemma {:induction false} OneMore(w: nat, m: nat)
    ensures (w + 1) * m == w * m + m
  {}

  /** Over a chain of accepted pairs the deltas telescope, plus one modulus per wrap. */
  lemma {:induction false} DeltasTelescope(wrap: Option<WrapRule>, vs: seq<uint64>)
    requires (wrap.Some? ==> ValidRule(wrap.value)) && Accepted(wrap, vs) && vs != []
    ensures SumDeltas(wrap, vs) == vs[|vs| - 1] - vs[0] + SumWraps(vs) * Modulus(wrap)
  {
    var n := |vs| - 1;
    if 0 < n {
      DeltasTelescope(wrap, vs[..n]);
      DeltaIs(wrap, vs[n - 1], vs[n]);
      OneMore(SumWraps(vs[..n]), Modulus(wrap));
    }
  }

  /** A delta across a wrap is at least one and below the modulus, so it fits 64 bits. */
  lemma {:induction false} WrapDeltaRange(wrap: Option<WrapRule>, old_: uint64, new_: uint64)
    requires (wrap.Some? ==> ValidRule(wrap.value)) && new_ < old_ && Delta(wrap, old_, new_).Some?
    ensures 1 <= Delta(wrap, old_, new_).value < wrap.value.modulus
  {}

  /** Samples `vs` read a counter that keeps only its remainder modulo `m`. */
  ghost predicate Reads(m: nat, true_: seq<nat>, vs: seq<uint64>)
    requires 0 < m
  {
    && |true_| == |vs|
    && (forall i :: 0 <= i < |vs| ==> vs[i] == true_[i] % m)
    && forall i :: 0 < i < |vs| ==> true_[i - 1] <= true_[i] < true_[i - 1] + m
  }

  lemma {:induction false} RemainderIs(x: nat, m: positive, k: nat, t: nat)
    requires x == k * m + t && t < m
    ensures x % m == t
  {
    QuotientBounds(x, m, k);
    QuotientBounds(x, m, k + 1);
    assert (k + 1) * m == k * m + m;
    assert x / m == k;
    assert x == m * (x / m) + x % m;
  }

  lemma {:induction false} RemainderStep(m: positive, a: nat, d: nat)
    requires d < m
    ensures (a + d) % m == if a % m + d < m then a % m + d else a % m + d - m
  {
    var q, r := a / m, a % m;
    assert a == q * m + r;
    if r + d < m {
      RemainderIs(a + d, m, q, r + d);
    } else {
      assert (q + 1) * m == q * m + m;
      RemainderIs(a + d, m, q + 1, r + d - m);
    }
  }

  /** If the counter never advances by a whole modulus between samples, each accepted delta is
      the true advance. */
  lemma {:induction false} DeltaIsTrueAdvance(rule: WrapRule, true_: seq<nat>, vs: seq<uint64>, i: nat)
    requires ValidRule(rule) && Reads(rule.modulus, true_, vs) && 0 < i < |vs|
    requires Delta(Some(rule), vs[i - 1], vs[i]).Some?
    ensures Delta(Some(rule), vs[i - 1], vs[i]).value == true_[i] - true_[i - 1]
  {
    RemainderStep(rule.modulus, true_[i - 1], true_[i] - true_[i - 1]);
  }

  // ----- The whole evaluation -----

  datatype Evaluation = Evaluation(code: Code, outputs: seq<Observation>)

  function Outputs(c: Config): seq<Output> {
    [c.delta] + if c.rate.Some? then [c.rate.value] else []
  }

  const OK_ERROR := ErrorMetadata(Status(Success, ""), 0, false)

  function UnavailableItem(c: Config, x: Context, newest: Option<Observation>, reason: string, o: Output): Observation {
    var n := newest;
    Observation(
      x.entity, o.metric, None, NotAvailable,
      if n.Some? then n.value.scheduledTime else x.evaluatedTime,
      None, x.evaluatedTime, o.version,
      if n.Some? then n.value.wallTime else 0,
      x.generation, 0,
      if n.Some? then n.value.counterEpoch else 0,
      SourceMetadata("pdcm-processor", c.id), None, None,
      ErrorMetadata(Status(Unavailable, reason), 0, false),
      Derivation(c.id, [if n.Some? then n.value.commitEpoch else 1], c.version, x.depth))
  }

  function NoResult(c: Config, x: Context, newest: Option<Observation>, reason: string): Evaluation {
    var os := Outputs(c);
    Evaluation(PartialResult, seq(|os|, i requires 0 <= i < |os| => UnavailableItem(c, x, newest, reason, os[i])))
  }

  function OutputItem(c: Config, x: Context, oldest: Observation, newest: Observation, o: Output, v: MetricValue)
    : Observation
  {
    Observation(
      x.entity, o.metric, Some(v), Valid, newest.scheduledTime, newest.sourceSampleTime, x.evaluatedTime, o.version,
      newest.wallTime, x.generation, 0, newest.counterEpoch, SourceMetadata("pdcm-processor", c.id),
      None, None, OK_ERROR,
      Derivation(c.id, [oldest.commitEpoch, newest.commitEpoch], c.version, x.depth))
  }

  predicate Usable(c: Config, x: Context, o: Observation) {
    && o.entity == x.entity && o.catalogGeneration == x.generation && o.metric == c.input.metric
    && o.semanticVersion == c.input.version && o.status.Valid? && o.value.Some? && o.value.value.Uint64Value?
  }

  /** Order by observed time, then by commit epoch. */
  predicate Before(a: Observation, b: Observation) {
    a.observedTime < b.observedTime || (a.observedTime == b.observedTime && a.commitEpoch < b.commitEpoch)
  }

  datatype Verdict = Reject(reason: string) | Accept(delta: uint64)

  /** The checks of `evaluate` on the oldest and the newest of two samples, in order. */
  function Judge(c: Config, x: Context, oldest: Observation, newest: Observation): (v: Verdict)
    requires ValidConfig(c)
    ensures v.Accept? ==> oldest.observedTime < newest.observedTime
  {
    var interval := newest.observedTime - oldest.observedTime;
    if !Usable(c, x, oldest) || !Usable(c, x, newest) then
      Reject("counter samples are invalid or changed generation")
    else if oldest.counterEpoch != newest.counterEpoch then Reject("counter epoch changed")
    else if interval <= 0 || x.evaluatedTime < newest.observedTime then Reject("counter sample time is invalid")
    else if interval < c.minimumInterval then Reject("counter interval is too small")
    else if c.maximumGap < interval then Reject("counter gap is too large")
    else
      var delta := Delta(c.wrap, oldest.value.value.u, newest.value.value.u);
      if delta.None? then Reject("counter reset was detected") else Accept(delta.value)
  }

  function EvaluatePair(c: Config, x: Context, oldest: Observation, newest: Observation): Evaluation
    requires ValidConfig(c)
  {
    match Judge(c, x, oldest, newest)
    case Reject(reason) => NoResult(c, x, Some(newest), reason)
    case Accept(delta) =>
      var rate := delta as real * 1000000000.0 / (newest.observedTime - oldest.observedTime) as real;
      Evaluation(
        Success,
        [OutputItem(c, x, oldest, newest, c.delta, Uint64Value(delta))] +
        if c.rate.Some? then [OutputItem(c, x, oldest, newest, c.rate.value, DoubleValue(rate))] else [])
  }

  function Evaluate(c: Config, x: Context, items: seq<Observation>): Evaluation
    requires ValidConfig(c)
  {
    if !ValidContext(x) || |items| != 2 then
      NoResult(c, x, if items == [] then None else Some(items[|items| - 1]), "insufficient samples")
    else if Before(items[1], items[0]) then EvaluatePair(c, x, items[1], items[0])
    else EvaluatePair(c, x, items[0], items[1])
  }

  /** A valid sample of the counter, of this entity and catalog. */
  predicate SampleOf(c: Config, x: Context, o: Observation) {
    && o.entity == x.entity && o.catalogGeneration == x.generation && o.status == Valid
    && (o.metric, o.semanticVersion) == (c.input.metric, c.input.version)
    && exists n: uint64 :: o.value == Some(Uint64Value(n))
  }

  /** A pair of samples gives a delta if and only if both are samples of one counter epoch, the newer is not in the
      future, their distance is within the configured bounds and the counter has not been reset. */
  lemma {:induction false} JudgeAcceptsIff(c: Config, x: Context, oldest: Observation, newest: Observation)
    requires ValidConfig(c)
    ensures Judge(c, x, oldest, newest).Accept? <==>
            && SampleOf(c, x, oldest) && SampleOf(c, x, newest) && oldest.counterEpoch == newest.counterEpoch
            && newest.observedTime <= x.evaluatedTime
            && c.minimumInterval <= newest.observedTime - oldest.observedTime <= c.maximumGap
            && (|| oldest.value.value.u <= newest.value.value.u
                || (&& c.wrap.Some? && c.wrap.value.minimumPrevious <= oldest.value.value.u < c.wrap.value.modulus
                    && newest.value.value.u <= c.wrap.value.maximumCurrent))
    ensures Judge(c, x, oldest, newest).Accept? ==>
              var a, b := oldest.value.value.u, newest.value.value.u;
              Judge(c, x, oldest, newest).delta == if a <= b then b - a else b - a + c.wrap.value.modulus
  {
    assert Usable(c, x, oldest) <==> SampleOf(c, x, oldest) by {
      assert Usable(c, x, oldest) ==> oldest.value == Some(Uint64Value(oldest.value.value.u));
    }
    assert Usable(c, x, newest) <==> SampleOf(c, x, newest) by {
      assert Usable(c, x, newest) ==> newest.value == Some(Uint64Value(newest.value.value.u));
    }
  }

  /** An accepted pair gives the delta and, if configured, the delta per second, both derived from the two samples;
      a rejected one gives an output without a value for each. */
  lemma {:induction false} OutputsAre(c: Config, x: Context, oldest: Observation, newest: Observation)
    requires ValidConfig(c)
    ensures var r, v := EvaluatePair(c, x, oldest, newest), Judge(c, x, oldest, newest);
            && |r.outputs| == (if c.rate.Some? then 2 else 1)
            && (r.outputs[0].metric, r.outputs[0].semanticVersion) == (c.delta.metric, c.delta.version)
            && (c.rate.Some? ==>
                  (r.outputs[1].metric, r.outputs[1].semanticVersion) == (c.rate.value.metric, c.rate.value.version))
            && if v.Reject? then
                 r.code.PartialResult? &&
                 forall i :: 0 <= i < |r.outputs| ==> r.outputs[i].value.None? && r.outputs[i].status.NotAvailable?
               else
                 && r.code.Success? && r.outputs[0].value == Some(Uint64Value(v.delta))
                 && (forall i :: 0 <= i < |r.outputs| ==>
                                   && r.outputs[i].status.Valid? && r.outputs[i].counterEpoch == newest.counterEpoch
                                   && r.outputs[i].derivation.inputSequences ==
                                      [oldest.commitEpoch, newest.commitEpoch])
                 && (c.rate.Some? ==>
                       && r.outputs[1].value.Some? && r.outputs[1].value.value.DoubleValue?
                       && r.outputs[1].value.value.d * (newest.observedTime - oldest.observedTime) as real ==
                          v.delta as real * 1000000000.0)
  {}

  /** What the executor accepts as input of a task. */
  predicate ValidInput(x: Context, items: seq<Observation>) {
    && ValidContext(x) && items != []
    && forall o :: o in items ==>
                     && o.entity == x.entity && o.catalogGeneration == x.generation && o.commitEpoch != 0
                     && ValidObservation(o)
  }

  /** What the executor demands of one output. */
  predicate MeetsContract(c: Config, x: Context, o: Observation, want: Output) {
    && o.metric == want.metric && o.semanticVersion == want.version
    && o.entity == x.entity && o.catalogGeneration == x.generation && o.commitEpoch == 0
    && o.derivation.processorId == c.id && o.derivation.version == c.version && o.derivation.depth == x.depth
    && ValidObservation(o)
  }

  ghost predicate AllMeetContract(c: Config, x: Context, r: Evaluation) {
    && |r.outputs| == |Outputs(c)|
    && forall i :: 0 <= i < |r.outputs| ==> MeetsContract(c, x, r.outputs[i], Outputs(c)[i])
  }

  lemma {:induction false} UnavailableMeets(c: Config, x: Context, newest: Option<Observation>, reason: string,
                                            o: Output)
    requires ValidConfig(c) && ValidContext(x) && o in Outputs(c)
    requires newest.Some? ==> ValidObservation(newest.value)
    ensures MeetsContract(c, x, UnavailableItem(c, x, newest, reason, o), o)
  {}

  lemma {:induction false} NoResultMeets(c: Config, x: Context, newest: Option<Observation>, reason: string)
    requires ValidConfig(c) && ValidContext(x) && (newest.Some? ==> ValidObservation(newest.value))
    ensures AllMeetContract(c, x, NoResult(c, x, newest, reason))
  {
    var os := Outputs(c);
    forall i | 0 <= i < |os| ensures MeetsContract(c, x, UnavailableItem(c, x, newest, reason, os[i]), os[i]) {
      UnavailableMeets(c, x, newest, reason, os[i]);
    }
  }

  lemma {:induction false} OutputItemMeets(c: Config, x: Context, oldest: Observation, newest: Observation, o: Output,
                                           v: MetricValue)
    requires ValidConfig(c) && ValidContext(x) && (o == c.delta || Some(o) == c.rate) && ValidObservation(newest)
    ensures MeetsContract(c, x, OutputItem(c, x, oldest, newest, o, v), o)
  {}

  lemma {:induction false} PairMeets(c: Config, x: Context, oldest: Observation, newest: Observation)
    requires ValidConfig(c) && ValidContext(x) && ValidObservation(newest)
    ensures AllMeetContract(c, x, EvaluatePair(c, x, oldest, newest))
  {
    match Judge(c, x, oldest, newest)
    case Reject(reason) => NoResultMeets(c, x, Some(newest), reason);
    case Accept(_) =>
      var r := EvaluatePair(c, x, oldest, newest);
      OutputItemMeets(c, x, oldest, newest, c.delta, r.outputs[0].value.value);
      if c.rate.Some? {
        OutputItemMeets(c, x, oldest, newest, c.rate.value, r.outputs[1].value.value);
      }
  }

  /** On every input the executor lets through, every evaluation, failed or not, meets the
      executor's output contract: it is never discarded as a contract violation. */
  lemma {:induction false} OutputsMeetContract(c: Config, x: Context, items: seq<Observation>)
    requires ValidConfig(c) && ValidInput(x, items)
    ensures AllMeetContract(c, x, Evaluate(c, x, items))
  {
    var last := items[|items| - 1];
    assert last in items && items[0] in items;
    if |items| == 2 {
      PairMeets(c, x, items[0], items[1]);
      PairMeets(c, x, items[1], items[0]);
    } else {
      NoResultMeets(c, x, Some(last), "insufficient samples");
    }
  }

  /** Two samples that can be told apart in time or by epoch may come in either order. */
  lemma {:induction false} SampleOrderIsIrrelevant(c: Config, x: Context, a: Observation, b: Observation)
    requires ValidConfig(c) && (Before(a, b) || Before(b, a))
    ensures Evaluate(c, x, [a, b]).code == Evaluate(c, x, [b, a]).code
    ensures ValidContext(x) ==> Evaluate(c, x, [a, b]) == Evaluate(c, x, [b, a])
  {}
}
