/**
  Attributing metric samples to kernel instances and averaging per kernel: the scan
  with an early break and the running mean of the metric streamer, against filtering
  all samples and the sum-then-divide mean of the metric query tool. Means are exact.
 */
module MetricSamples {

  /** zet_typed_value_t, for the two types the tools accept. */
  datatype Value = U64(ui64: nat) | F32(fp32: real)

  /** Which value of a report is which metric, and how many values a report has. */
  datatype Layout = Layout(time: nat, active: nat, stall: nat, size: nat)
  {
    predicate Valid() {
      time < size && active < size && stall < size
    }
  }

  datatype Sample = Sample(time: nat, active: real, stall: real)

  datatype Interval = Interval(name: string, start: nat, end: nat)

  /** One run of a kernel with what was measured for it. */
  datatype Instance = Instance(name: string, time: nat, active: real, stall: real)

  datatype Kernel = Kernel(totalTime: nat, callCount: nat, active: real, stall: real)

  /** A flat list of whole reports, each with a timestamp. */
  predicate IsReportList(values: seq<Value>, layout: Layout)
    requires layout.Valid()
    decreases |values|
  {
    values == [] ||
    (|values| >= layout.size && values[layout.time].U64? && IsReportList(values[layout.size..], layout))
  }

  /** `x` is the mean of `n` numbers with the given sum. */
  predicate IsMean(x: real, n: nat, sum: real) {
    x * n as real == sum
  }

  /** A metric value as a number; of a value with another type nothing is made. */
  function Number(v: Value): real {
    if v.F32? then v.fp32 else 0.0
  }

  /** The sample in the first report. */
  function FirstSample(values: seq<Value>, layout: Layout): Sample
    requires layout.Valid() && layout.size <= |values| && values[layout.time].U64?
  {
    Sample(values[layout.time].ui64, Number(values[layout.active]), Number(values[layout.stall]))
  }

  function Samples(values: seq<Value>, layout: Layout): seq<Sample>
    requires layout.Valid() && IsReportList(values, layout)
    decreases |values|
  {
    if values == [] then [] else [FirstSample(values, layout)] + Samples(values[layout.size..], layout)
  }

  // ---------------------------------------------------------------- attribution

  predicate Inside(sample: Sample, kernel: Interval) {
    kernel.start <= sample.time <= kernel.end
  }

  /** All samples of the kernel. */
  function Attributed(samples: seq<Sample>, kernel: Interval): seq<Sample> {
    if samples == [] then []
    else (if Inside(samples[0], kernel) then [samples[0]] else []) + Attributed(samples[1..], kernel)
  }

  /** The samples the scan sees before it breaks off at the first one after the kernel's end. */
  function Scanned(samples: seq<Sample>, kernel: Interval): seq<Sample> {
    if samples == [] then []
    else (if Inside(samples[0], kernel) then [samples[0]] else [])
         + (if samples[0].time > kernel.end then [] else Scanned(samples[1..], kernel))
  }

  ghost predicate NoneAfterEnd(samples: seq<Sample>, kernel: Interval) {
    forall i, k :: 0 <= i < k < |samples| && samples[i].time > kernel.end ==> !Inside(samples[k], kernel)
  }

  ghost predicate Sorted(samples: seq<Sample>) {
    forall i, k :: 0 <= i < k < |samples| ==> samples[i].time <= samples[k].time
  }

  lemma {:induction false} AttributedNone(samples: seq<Sample>, kernel: Interval)
    ensures Attributed(samples, kernel) == [] <==> forall i :: 0 <= i < |samples| ==> !Inside(samples[i], kernel)
  {
    if samples != [] {
      AttributedNone(samples[1..], kernel);
      assert forall i :: 0 < i < |samples| ==> samples[i] == samples[1..][i - 1];
    }
  }

  lemma NoneAfterEndTail(samples: seq<Sample>, kernel: Interval)
    requires samples != []
    ensures NoneAfterEnd(samples, kernel) <==>
              && NoneAfterEnd(samples[1..], kernel)
              && (samples[0].time > kernel.end ==> forall k :: 0 <= k < |samples[1..]| ==>
                  !Inside(samples[1..][k], kernel))
  {
    var rest := samples[1..];
    assert forall i :: 0 < i < |samples| ==> samples[i] == rest[i - 1];
    if NoneAfterEnd(samples, kernel) {
      forall i, k | 0 <= i < k < |rest| && rest[i].time > kernel.end ensures !Inside(rest[k], kernel) {
        assert samples[i + 1] == rest[i] && samples[k + 1] == rest[k];
      }
      if samples[0].time > kernel.end {
        forall k | 0 <= k < |rest| ensures !Inside(rest[k], kernel) { assert samples[k + 1] == rest[k]; }
      }
    }
  }

  /**
    The scan finds all samples of the kernel exactly if none of them comes after a
    sample that is past the kernel's end.
   */
  lemma {:induction false} ScanIsFilter(samples: seq<Sample>, kernel: Interval)
    ensures Scanned(samples, kernel) == Attributed(samples, kernel) <==> NoneAfterEnd(samples, kernel)
    ensures Scanned(samples, kernel) <= Attributed(samples, kernel)
  {
    if samples != [] {
      ScanIsFilter(samples[1..], kernel);
      NoneAfterEndTail(samples, kernel);
      var first := if Inside(samples[0], kernel) then [samples[0]] else [];
      var scanned, rest := Scanned(samples[1..], kernel), Attributed(samples[1..], kernel);
      if samples[0].time > kernel.end {
        AttributedNone(samples[1..], kernel);
        NoneAfterEndOfNone(samples[1..], kernel);
      } else {
        assert (first + scanned)[|first|..] == scanned && (first + rest)[|first|..] == rest;
      }
    }
  }

  lemma NoneAfterEndOfNone(samples: seq<Sample>, kernel: Interval)
    ensures (forall i :: 0 <= i < |samples| ==> !Inside(samples[i], kernel)) ==> NoneAfterEnd(samples, kernel)
  {
  }

  /** On reports in time order nothing is missed. */
  lemma {:induction false} SortedScanIsFilter(samples: seq<Sample>, kernel: Interval)
    requires Sorted(samples)
    ensures Scanned(samples, kernel) == Attributed(samples, kernel)
  {
    ScanIsFilter(samples, kernel);
  }

  function SumActive(samples: seq<Sample>): real {
    if samples == [] then 0.0 else SumActive(samples[..|samples| - 1]) + samples[|samples| - 1].active
  }

  function SumStall(samples: seq<Sample>): real {
    if samples == [] then 0.0 else SumStall(samples[..|samples| - 1]) + samples[|samples| - 1].stall
  }

  function Mean(sum: real, n: nat): real
    requires n > 0
  {
    sum / n as real
  }

  /** The mean of `n + 1` values from that of the first `n` and the last. */
  function NextMean(mean: real, n: nat, x: real): real {
    (mean * n as real + x) / (n + 1) as real
  }

  /** What is measured for a kernel run: the means over its samples, or zero without samples. */
  function Measured(kernel: Interval, samples: seq<Sample>): Instance
    requires kernel.start <= kernel.end
  {
    if samples == [] then Instance(kernel.name, kernel.end - kernel.start, 0.0, 0.0)
    else Instance(kernel.name, kernel.end - kernel.start,
                  Mean(SumActive(samples), |samples|), Mean(SumStall(samples), |samples|))
  }

  /**
    What the source asserts of the reports a walk meets, up to the first one after the
    kernel's end: a timestamp, and numbers if it is inside.
   */
  predicate IsMeasurable(values: seq<Value>, layout: Layout, kernel: Interval)
    requires layout.Valid()
    decreases |values|
  {
    values == [] ||
    (&& layout.size <= |values| && values[layout.time].U64?
     && (Inside(FirstSample(values, layout), kernel) ==> values[layout.active].F32? && values[layout.stall].F32?)
     && (FirstSample(values, layout).time > kernel.end || IsMeasurable(values[layout.size..], layout, kernel)))
  }

  /** The samples the walk takes. */
  function Taken(values: seq<Value>, layout: Layout, kernel: Interval): seq<Sample>
    requires layout.Valid() && IsMeasurable(values, layout, kernel)
    decreases |values|
  {
    if values == [] then []
    else
      var sample := FirstSample(values, layout);
      (if Inside(sample, kernel) then [sample] else [])
      + (if sample.time > kernel.end then [] else Taken(values[layout.size..], layout, kernel))
  }

  /** On a list of reports with timestamps the walk takes the scanned samples. */
  lemma {:induction false} TakenIsScanned(values: seq<Value>, layout: Layout, kernel: Interval)
    requires layout.Valid() && IsMeasurable(values, layout, kernel) && IsReportList(values, layout)
    ensures Taken(values, layout, kernel) == Scanned(Samples(values, layout), kernel)
    decreases |values|
  {
    if values != [] {
      assert Samples(values, layout)[1..] == Samples(values[layout.size..], layout);
      if FirstSample(values, layout).time <= kernel.end {
        TakenIsScanned(values[layout.size..], layout, kernel);
      }
    }
  }

  /** `ahead` is what the walk has yet to take from `report` on. */
  ghost predicate IsAhead(values: seq<Value>, layout: Layout, kernel: Interval, report: nat, ahead: seq<Sample>)
    requires layout.Valid()
  {
    && report <= |values| && IsMeasurable(values[report..], layout, kernel)
    && ahead == Taken(values[report..], layout, kernel)
  }

  lemma WalkStep(values: seq<Value>, layout: Layout, kernel: Interval, report: nat, ahead: seq<Sample>)
    returns (rest: seq<Sample>)
    requires layout.Valid() && report < |values| && IsAhead(values, layout, kernel, report, ahead)
    ensures report + layout.size <= |values| && values[report + layout.time].U64?
    ensures var time := values[report + layout.time].ui64;
            && (if time > kernel.end then rest == [] else IsAhead(values, layout, kernel, report + layout.size, rest))
            && (if kernel.start <= time <= kernel.end
                then
                  && values[report + layout.active].F32? && values[report + layout.stall].F32?
                  && ahead
                     == [Sample(time, values[report + layout.active].fp32, values[report + layout.stall].fp32)] + rest
                else ahead == rest)
  {
    var reports := values[report..];
    assert reports[layout.size..] == values[report + layout.size..];
    rest := if FirstSample(reports, layout).time > kernel.end then []
            else Taken(reports[layout.size..], layout, kernel);
  }

  lemma WalkEnds(values: seq<Value>, layout: Layout, kernel: Interval, report: nat, ahead: seq<Sample>)
    requires layout.Valid() && IsAhead(values, layout, kernel, report, ahead) && report == |values|
    ensures ahead == []
  {
  }

  /** The walk has reached `report` and summed up the samples `seen`; with those ahead they are all. */
  ghost predicate Walking(seen: seq<Sample>, ahead: seq<Sample>, all: seq<Sample>, count: nat, active: real,
                          stall: real)
  {
    seen + ahead == all && count == |seen| && active == SumActive(seen) && stall == SumStall(seen)
  }

  lemma TakeOne(seen: seq<Sample>, sample: Sample, rest: seq<Sample>, all: seq<Sample>, count: nat, active: real,
                stall: real)
    requires Walking(seen, [sample] + rest, all, count, active, stall)
    ensures Walking(seen + [sample], rest, all, count + 1, active + sample.active, stall + sample.stall)
  {
    SumAppend(seen, sample);
    assert (seen + [sample]) + rest == seen + ([sample] + rest);
  }

  lemma SumAppend(seen: seq<Sample>, sample: Sample)
    ensures SumActive(seen + [sample]) == SumActive(seen) + sample.active
    ensures SumStall(seen + [sample]) == SumStall(seen) + sample.stall
  {
    assert (seen + [sample])[..|seen|] == seen;
  }

  /** One report further, with what the loop adds up. */
  lemma WalkOne(values: seq<Value>, layout: Layout, kernel: Interval, report: nat, seen: seq<Sample>,
                ahead: seq<Sample>, all: seq<Sample>, count: nat, active: real, stall: real)
    returns (seen': seq<Sample>, ahead': seq<Sample>)
    requires layout.Valid() && report < |values| && IsAhead(values, layout, kernel, report, ahead)
    requires Walking(seen, ahead, all, count, active, stall)
    ensures report + layout.size <= |values| && values[report + layout.time].U64?
    ensures var time := values[report + layout.time].ui64;
            && (if time > kernel.end then ahead' == []
                else IsAhead(values, layout, kernel, report + layout.size, ahead'))
            && (if kernel.start <= time <= kernel.end
                then
                  && values[report + layout.active].F32? && values[report + layout.stall].F32?
                  && Walking(seen', ahead', all, count + 1, active + values[report + layout.active].fp32,
                             stall + values[report + layout.stall].fp32)
                else Walking(seen', ahead', all, count, active, stall))
  {
    var rest := WalkStep(values, layout, kernel, report, ahead);
    var time := values[report + layout.time].ui64;
    seen', ahead' := seen, rest;
    if kernel.start <= time <= kernel.end {
      TakeOne(seen, ahead[0], rest, all, count, active, stall);
      seen' := seen + [ahead[0]];
    }
  }

  lemma AllAhead(values: seq<Value>, layout: Layout, kernel: Interval, all: seq<Sample>)
    requires layout.Valid() && IsMeasurable(values, layout, kernel) && all == Taken(values, layout, kernel)
    ensures IsAhead(values, layout, kernel, 0, all) && Walking([], all, all, 0, 0.0, 0.0)
  {
    assert values[0..] == values;
  }

  lemma WalkedAll(seen: seq<Sample>, all: seq<Sample>, count: nat, active: real, stall: real)
    requires Walking(seen, [], all, count, active, stall)
    ensures count == |all| && active == SumActive(all) && stall == SumStall(all)
  {
    assert seen == all;
  }

  /** The inner loop of the streamer: one walk over the reports for one kernel run. */
  method Accumulate(values: seq<Value>, layout: Layout, kernel: Interval)
    returns (sampleCount: nat, euActive: real, euStall: real)
    requires layout.Valid() && IsMeasurable(values, layout, kernel)
    ensures var taken := Taken(values, layout, kernel);
            sampleCount == |taken| && euActive == SumActive(taken) && euStall == SumStall(taken)
  {
    var report := 0;
    sampleCount, euActive, euStall := 0, 0.0, 0.0;
    ghost var seen: seq<Sample>, all := [], Taken(values, layout, kernel);
    ghost var ahead := all;
    AllAhead(values, layout, kernel, all);
    while report < |values|
      invariant report <= |values| && IsAhead(values, layout, kernel, report, ahead)
      invariant Walking(seen, ahead, all, sampleCount, euActive, euStall)
      decreases |values| - report
    {
      seen, ahead := WalkOne(values, layout, kernel, report, seen, ahead, all, sampleCount, euActive, euStall);
      var reportTimestamp := values[report + layout.time].ui64;
      if reportTimestamp >= kernel.start && reportTimestamp <= kernel.end {
        euActive := euActive + values[report + layout.active].fp32;
        euStall := euStall + values[report + layout.stall].fp32;
        sampleCount := sampleCount + 1;
      }
      if reportTimestamp > kernel.end {
        WalkedAll(seen, all, sampleCount, euActive, euStall);
        return;
      }
      report := report + layout.size;
    }
    WalkEnds(values, layout, kernel, report, ahead);
    WalkedAll(seen, all, sampleCount, euActive, euStall);
  }

  // ---------------------------------------------------------------- what the reports say

  /** How many reports with a time inside the kernel run there are, up to the first one after its end. */
  function ReportsInside(values: seq<Value>, layout: Layout, kernel: Interval): nat
    requires layout.Valid() && IsMeasurable(values, layout, kernel)
    decreases |values|
  {
    if values == [] then 0
    else
      var time := values[layout.time].ui64;
      (if kernel.start <= time <= kernel.end then 1 else 0)
      + (if time > kernel.end then 0 else ReportsInside(values[layout.size..], layout, kernel))
  }

  /** The sum of their values in one column of the reports. */
  function ColumnSum(values: seq<Value>, layout: Layout, kernel: Interval, column: nat): real
    requires layout.Valid() && IsMeasurable(values, layout, kernel)
    requires column == layout.active || column == layout.stall
    decreases |values|
  {
    if values == [] then 0.0
    else
      var time := values[layout.time].ui64;
      (if kernel.start <= time <= kernel.end then values[column].fp32 else 0.0)
      + (if time > kernel.end then 0.0 else ColumnSum(values[layout.size..], layout, kernel, column))
  }

  lemma {:induction false} SumFirst(sample: Sample, rest: seq<Sample>)
    ensures SumActive([sample] + rest) == sample.active + SumActive(rest)
    ensures SumStall([sample] + rest) == sample.stall + SumStall(rest)
    decreases |rest|
  {
    var all := [sample] + rest;
    if rest == [] {
      assert all[..|all| - 1] == [] && all == [sample];
    } else {
      SumFirst(sample, rest[..|rest| - 1]);
      assert all[..|all| - 1] == [sample] + rest[..|rest| - 1];
    }
  }

  lemma {:induction false} TakenTellsReports(values: seq<Value>, layout: Layout, kernel: Interval)
    requires layout.Valid() && IsMeasurable(values, layout, kernel)
    ensures var taken := Taken(values, layout, kernel);
            && |taken| == ReportsInside(values, layout, kernel)
            && SumActive(taken) == ColumnSum(values, layout, kernel, layout.active)
            && SumStall(taken) == ColumnSum(values, layout, kernel, layout.stall)
    decreases |values|
  {
    if values != [] {
      var sample := FirstSample(values, layout);
      var rest := if sample.time > kernel.end then [] else Taken(values[layout.size..], layout, kernel);
      if sample.time <= kernel.end {
        TakenTellsReports(values[layout.size..], layout, kernel);
      }
      if Inside(sample, kernel) {
        SumFirst(sample, rest);
      } else {
        assert Taken(values, layout, kernel) == rest;
      }
    }
  }

  /**
    What is measured for a kernel run tells the run and the reports: its name and
    length, and values which, times the number of reports inside, are the sums of those
    reports' columns; without such reports they are 0.
   */
  predicate TellsReports(instance: Instance, values: seq<Value>, layout: Layout, kernel: Interval)
    requires layout.Valid() && IsMeasurable(values, layout, kernel)
  {
    var n := ReportsInside(values, layout, kernel);
    && instance.name == kernel.name && instance.time == kernel.end - kernel.start
    && IsMean(instance.active, n, ColumnSum(values, layout, kernel, layout.active))
    && IsMean(instance.stall, n, ColumnSum(values, layout, kernel, layout.stall))
    && (n == 0 ==> instance.active == 0.0 && instance.stall == 0.0)
  }

  lemma MeanIs(sum: real, n: nat)
    requires n > 0
    ensures IsMean(Mean(sum, n), n, sum)
  {
  }

  lemma MeasuredIs(kernel: Interval, samples: seq<Sample>)
    requires kernel.start <= kernel.end
    ensures var instance := Measured(kernel, samples);
            && IsMean(instance.active, |samples|, SumActive(samples))
            && IsMean(instance.stall, |samples|, SumStall(samples))
  {
    if samples != [] {
      MeanIs(SumActive(samples), |samples|);
      MeanIs(SumStall(samples), |samples|);
    }
  }

  lemma MeasuredTellsReports(values: seq<Value>, layout: Layout, kernel: Interval)
    requires layout.Valid() && IsMeasurable(values, layout, kernel) && kernel.start <= kernel.end
    ensures TellsReports(Measured(kernel, Taken(values, layout, kernel)), values, layout, kernel)
  {
    TakenTellsReports(values, layout, kernel);
    MeasuredIs(kernel, Taken(values, layout, kernel));
  }

  /** What the streamer measures for one kernel run. */
  method Measure(values: seq<Value>, layout: Layout, kernel: Interval) returns (instance: Instance)
    requires layout.Valid() && IsMeasurable(values, layout, kernel) && kernel.start <= kernel.end
    ensures instance == Measured(kernel, Taken(values, layout, kernel))
    ensures TellsReports(instance, values, layout, kernel)
  {
    MeasuredTellsReports(values, layout, kernel);
    var sampleCount, euActive, euStall := Accumulate(values, layout, kernel);
    if sampleCount > 0 {
      euActive := Mean(euActive, sampleCount);
      euStall := Mean(euStall, sampleCount);
    }
    instance := Instance(kernel.name, kernel.end - kernel.start, euActive, euStall);
  }

  // ---------------------------------------------------------------- means per kernel

  function TotalTime(instances: seq<Instance>): nat {
    if instances == [] then 0 else TotalTime(instances[..|instances| - 1]) + instances[|instances| - 1].time
  }

  function TotalActive(instances: seq<Instance>): real {
    if instances == [] then 0.0 else TotalActive(instances[..|instances| - 1]) + instances[|instances| - 1].active
  }

  function TotalStall(instances: seq<Instance>): real {
    if instances == [] then 0.0 else TotalStall(instances[..|instances| - 1]) + instances[|instances| - 1].stall
  }

  /** The plain mean over the instances of one kernel. */
  function PlainMean(instances: seq<Instance>): Kernel
    requires instances != []
  {
    Kernel(TotalTime(instances), |instances|,
           Mean(TotalActive(instances), |instances|), Mean(TotalStall(instances), |instances|))
  }

  function OfName(instances: seq<Instance>, name: string): seq<Instance> {
    if instances == [] then []
    else
      OfName(instances[..|instances| - 1], name)
      + (if instances[|instances| - 1].name == name then [instances[|instances| - 1]] else [])
  }

  /** The streamer's update of the map with one more instance. */
  function AddInstance(kernels: map<string, Kernel>, instance: Instance): map<string, Kernel>
    requires forall name :: name in kernels ==> kernels[name].callCount > 0
  {
    if instance.name !in kernels
    then kernels[instance.name := Kernel(instance.time, 1, instance.active, instance.stall)]
    else
      var k := kernels[instance.name];
      kernels[instance.name := Kernel(
        k.totalTime + instance.time,
        k.callCount + 1,
        NextMean(k.active, k.callCount, instance.active),
        NextMean(k.stall, k.callCount, instance.stall))]
  }

  /** A kernel is in the map if it has an instance, with the plain mean of its instances. */
  ghost predicate HoldsMean(kernels: map<string, Kernel>, instances: seq<Instance>, name: string) {
    if name in kernels then OfName(instances, name) != [] && kernels[name] == PlainMean(OfName(instances, name))
    else OfName(instances, name) == []
  }

  ghost predicate HoldsMeans(kernels: map<string, Kernel>, instances: seq<Instance>) {
    forall name :: HoldsMean(kernels, instances, name)
  }

  lemma RunningMean(sum: real, n: nat, x: real)
    requires n > 0
    ensures NextMean(Mean(sum, n), n, x) == Mean(sum + x, n + 1)
  {
    assert Mean(sum, n) * n as real == sum;
  }

  lemma PlainMeanAppend(instances: seq<Instance>, instance: Instance)
    requires instances != []
    ensures var k := PlainMean(instances);
            PlainMean(instances + [instance])
            == Kernel(k.totalTime + instance.time, k.callCount + 1,
                      NextMean(k.active, k.callCount, instance.active), NextMean(k.stall, k.callCount, instance.stall))
  {
    assert (instances + [instance])[..|instances|] == instances;
    RunningMean(TotalActive(instances), |instances|, instance.active);
    RunningMean(TotalStall(instances), |instances|, instance.stall);
  }

  lemma PlainMeanOfOne(instance: Instance)
    ensures PlainMean([instance]) == Kernel(instance.time, 1, instance.active, instance.stall)
  {
    var one, none: seq<Instance> := [instance], [];
    assert one[..|one| - 1] == none;
    assert TotalTime(none) == 0 && TotalActive(none) == 0.0 && TotalStall(none) == 0.0;
    assert TotalTime(one) == instance.time && TotalActive(one) == instance.active && TotalStall(one) == instance.stall;
    MeanOfOne(instance.active);
    MeanOfOne(instance.stall);
  }

  lemma MeanOfOne(x: real)
    ensures Mean(x, 1) == x
  {
  }

  /** What one more instance means for one name. */
  lemma OneMean(kernels: map<string, Kernel>, instances: seq<Instance>, instance: Instance, name: string)
    requires HoldsMeans(kernels, instances)
    requires forall name :: name in kernels ==> kernels[name].callCount > 0
    ensures HoldsMean(AddInstance(kernels, instance), instances + [instance], name)
  {
    assert HoldsMean(kernels, instances, name);
    assert (instances + [instance])[..|instances|] == instances;
    var mine := OfName(instances, name);
    if instance.name != name {
      assert OfName(instances + [instance], name) == mine;
    } else {
      assert OfName(instances + [instance], name) == mine + [instance];
      if mine == [] {
        assert mine + [instance] == [instance];
        PlainMeanOfOne(instance);
      } else {
        PlainMeanAppend(mine, instance);
      }
    }
  }

  /** The running mean is the plain mean. */
  lemma RunningMeanIsPlainMean(kernels: map<string, Kernel>, instances: seq<Instance>, instance: Instance)
    requires HoldsMeans(kernels, instances)
    ensures forall name :: name in kernels ==> kernels[name].callCount > 0
    ensures HoldsMeans(AddInstance(kernels, instance), instances + [instance])
  {
    forall name | name in kernels ensures kernels[name].callCount > 0 { assert HoldsMean(kernels, instances, name); }
    forall name ensures HoldsMean(AddInstance(kernels, instance), instances + [instance], name) {
      OneMean(kernels, instances, instance, name);
    }
  }

  method AddTo(kernels: map<string, Kernel>, kernel: Instance) returns (kernels': map<string, Kernel>)
    requires forall name :: name in kernels ==> kernels[name].callCount > 0
    ensures kernels' == AddInstance(kernels, kernel)
  {
    if kernel.name !in kernels {
      kernels' := kernels[kernel.name := Kernel(kernel.time, 1, kernel.active, kernel.stall)];
    } else {
      var info := kernels[kernel.name];
      info := info.(totalTime := info.totalTime + kernel.time);
      info := info.(active := NextMean(info.active, info.callCount, kernel.active));
      info := info.(stall := NextMean(info.stall, info.callCount, kernel.stall));
      info := info.(callCount := info.callCount + 1);
      kernels' := kernels[kernel.name := info];
    }
  }

  /** What is asserted of the reports and kernel runs. */
  predicate AllMeasurable(values: seq<Value>, layout: Layout, intervals: seq<Interval>)
    requires layout.Valid()
  {
    forall i :: 0 <= i < |intervals| ==>
      intervals[i].start <= intervals[i].end && IsMeasurable(values, layout, intervals[i])
  }

  function Instances(values: seq<Value>, layout: Layout, intervals: seq<Interval>): (instances: seq<Instance>)
    requires layout.Valid() && AllMeasurable(values, layout, intervals)
    ensures |instances| == |intervals|
  {
    seq(|intervals|, i requires 0 <= i < |intervals| => Measured(intervals[i], Taken(values, layout, intervals[i])))
  }

  /** How many of the kernel runs have the name, and how long they took. */
  function RunCount(intervals: seq<Interval>, name: string): nat {
    if intervals == [] then 0
    else RunCount(intervals[..|intervals| - 1], name) + if intervals[|intervals| - 1].name == name then 1 else 0
  }

  function RunTime(intervals: seq<Interval>, name: string): int {
    if intervals == [] then 0
    else
      var last := intervals[|intervals| - 1];
      RunTime(intervals[..|intervals| - 1], name) + if last.name == name then last.end - last.start else 0
  }

  /** The mean of a column over the reports inside a kernel run. */
  function RunMean(values: seq<Value>, layout: Layout, kernel: Interval, column: nat): real
    requires layout.Valid() && IsMeasurable(values, layout, kernel)
    requires column == layout.active || column == layout.stall
  {
    var n := ReportsInside(values, layout, kernel);
    if n == 0 then 0.0 else ColumnSum(values, layout, kernel, column) / n as real
  }

  /** The sum of those means over the runs with the name. */
  function RunMeans(values: seq<Value>, layout: Layout, intervals: seq<Interval>, name: string, column: nat): real
    requires layout.Valid() && AllMeasurable(values, layout, intervals)
    requires column == layout.active || column == layout.stall
  {
    if intervals == [] then 0.0
    else
      var last := intervals[|intervals| - 1];
      RunMeans(values, layout, intervals[..|intervals| - 1], name, column)
      + if last.name == name then RunMean(values, layout, last, column) else 0.0
  }

  lemma Divided(x: real, n: nat, sum: real)
    requires n > 0 && IsMean(x, n, sum)
    ensures x == sum / n as real
  {
  }

  lemma InstanceIsRunMean(instance: Instance, values: seq<Value>, layout: Layout, kernel: Interval)
    requires layout.Valid() && IsMeasurable(values, layout, kernel) && TellsReports(instance, values, layout, kernel)
    ensures instance.active == RunMean(values, layout, kernel, layout.active)
    ensures instance.stall == RunMean(values, layout, kernel, layout.stall)
  {
    var n := ReportsInside(values, layout, kernel);
    if n > 0 {
      Divided(instance.active, n, ColumnSum(values, layout, kernel, layout.active));
      Divided(instance.stall, n, ColumnSum(values, layout, kernel, layout.stall));
    }
  }

  /** The instances of a name are its runs. */
  lemma {:induction false} InstancesTellRuns(values: seq<Value>, layout: Layout, intervals: seq<Interval>, name: string)
    requires layout.Valid() && AllMeasurable(values, layout, intervals)
    ensures var mine := OfName(Instances(values, layout, intervals), name);
            && |mine| == RunCount(intervals, name) && TotalTime(mine) == RunTime(intervals, name)
            && TotalActive(mine) == RunMeans(values, layout, intervals, name, layout.active)
            && TotalStall(mine) == RunMeans(values, layout, intervals, name, layout.stall)
    decreases |intervals|
  {
    if intervals != [] {
      var before, last := intervals[..|intervals| - 1], intervals[|intervals| - 1];
      var instances := Instances(values, layout, intervals);
      InstancesTellRuns(values, layout, before, name);
      MeasuredTellsReports(values, layout, last);
      InstanceIsRunMean(instances[|before|], values, layout, last);
      assert instances[..|before|] == Instances(values, layout, before);
      TotalsOfOneMore(OfName(instances[..|before|], name), instances[|before|]);
    }
  }

  lemma TotalsOfOneMore(instances: seq<Instance>, instance: Instance)
    ensures TotalTime(instances + [instance]) == TotalTime(instances) + instance.time
    ensures TotalActive(instances + [instance]) == TotalActive(instances) + instance.active
    ensures TotalStall(instances + [instance]) == TotalStall(instances) + instance.stall
    ensures instances + [] == instances
  {
    assert (instances + [instance])[..|instances|] == instances;
  }

  /**
    The table tells the kernel runs: each name with its number of runs and their total
    length, and values which, times that number, are the sums of the runs' means.
   */
  ghost predicate TellsRuns(kernels: map<string, Kernel>, values: seq<Value>, layout: Layout, intervals: seq<Interval>)
    requires layout.Valid() && AllMeasurable(values, layout, intervals)
  {
    forall name :: TellsRunsOf(kernels, values, layout, intervals, name)
  }

  predicate TellsRunsOf(kernels: map<string, Kernel>, values: seq<Value>, layout: Layout, intervals: seq<Interval>,
                        name: string)
    requires layout.Valid() && AllMeasurable(values, layout, intervals)
  {
    var n := RunCount(intervals, name);
    && (name in kernels <==> n > 0)
    && (name in kernels ==>
          && kernels[name].callCount == n && kernels[name].totalTime == RunTime(intervals, name)
          && IsMean(kernels[name].active, n, RunMeans(values, layout, intervals, name, layout.active))
          && IsMean(kernels[name].stall, n, RunMeans(values, layout, intervals, name, layout.stall)))
  }

  lemma MeansTellRuns(kernels: map<string, Kernel>, values: seq<Value>, layout: Layout, intervals: seq<Interval>)
    requires layout.Valid() && AllMeasurable(values, layout, intervals)
    requires HoldsMeans(kernels, Instances(values, layout, intervals))
    ensures TellsRuns(kernels, values, layout, intervals)
  {
    forall name ensures TellsRunsOf(kernels, values, layout, intervals, name) {
      var instances := Instances(values, layout, intervals);
      assert HoldsMean(kernels, instances, name);
      InstancesTellRuns(values, layout, intervals, name);
      var mine := OfName(instances, name);
      if name in kernels {
        PlainMeanIs(mine);
      }
    }
  }

  lemma PlainMeanIs(instances: seq<Instance>)
    requires instances != []
    ensures IsMean(PlainMean(instances).active, |instances|, TotalActive(instances))
    ensures IsMean(PlainMean(instances).stall, |instances|, TotalStall(instances))
  {
    MeanIs(TotalActive(instances), |instances|);
    MeanIs(TotalStall(instances), |instances|);
  }

  lemma OneMoreInstance(values: seq<Value>, layout: Layout, intervals: seq<Interval>, i: nat)
    requires layout.Valid() && AllMeasurable(values, layout, intervals) && i < |intervals|
    ensures var instances := Instances(values, layout, intervals);
            instances[..i + 1] == instances[..i] + [Measured(intervals[i], Taken(values, layout, intervals[i]))]
  {
  }

  /** The loop over the kernel runs. */
  method AddRuns(values: seq<Value>, layout: Layout, intervals: seq<Interval>) returns (kernels: map<string, Kernel>)
    requires layout.Valid() && AllMeasurable(values, layout, intervals)
    ensures HoldsMeans(kernels, Instances(values, layout, intervals))
  {
    kernels := map[];
    ghost var instances := Instances(values, layout, intervals);
    for i := 0 to |intervals|
      invariant HoldsMeans(kernels, instances[..i])
    {
      var kernel := Measure(values, layout, intervals[i]);
      OneMoreInstance(values, layout, intervals, i);
      RunningMeanIsPlainMean(kernels, instances[..i], kernel);
      kernels := AddTo(kernels, kernel);
    }
    assert instances[..|intervals|] == instances;
  }

  /** GetKernelMap of the metric streamer. */
  method StreamerKernelMap(values: seq<Value>, layout: Layout, intervals: seq<Interval>)
    returns (kernels: map<string, Kernel>)
    requires layout.Valid() && AllMeasurable(values, layout, intervals)
    ensures if values == [] then kernels == map[] else HoldsMeans(kernels, Instances(values, layout, intervals))
    ensures values != [] ==> TellsRuns(kernels, values, layout, intervals)
  {
    kernels := map[];
    if |values| == 0 {
      return;
    }
    if |intervals| == 0 {
      assert HoldsMeans(kernels, Instances(values, layout, intervals));
    } else {
      kernels := AddRuns(values, layout, intervals);
    }
    MeansTellRuns(kernels, values, layout, intervals);
  }

  /** GetKernelMap of the metric query tool: the instances come grouped by kernel. */
  method QueryKernelMap(reports: map<string, seq<Instance>>) returns (kernels: map<string, Kernel>)
    requires forall name :: name in reports ==> reports[name] != []
    ensures kernels.Keys == reports.Keys
    ensures forall name :: name in reports ==> kernels[name] == PlainMean(reports[name])
  {
    kernels := map[];
    var rest := reports.Keys;
    while rest != {}
      invariant rest <= reports.Keys && kernels.Keys == reports.Keys - rest
      invariant forall name :: name in kernels ==> kernels[name] == PlainMean(reports[name])
      decreases rest
    {
      var name :| name in rest;
      var list := reports[name];
      var info := Kernel(0, 0, 0.0, 0.0);
      for i := 0 to |list|
        invariant info == Kernel(TotalTime(list[..i]), i, TotalActive(list[..i]), TotalStall(list[..i]))
      {
        assert list[..i + 1][..i] == list[..i];
        info := Kernel(info.totalTime + list[i].time, info.callCount + 1, info.active + list[i].active,
                       info.stall + list[i].stall);
      }
      assert list[..|list|] == list;
      info := info.(active := Mean(info.active, info.callCount));
      info := info.(stall := Mean(info.stall, info.callCount));
      kernels := kernels[name := info];
      rest := rest - {name};
    }
  }

  /** Both tools give the same table for the same kernel runs. */
  lemma StreamerAgreesWithQuery(streamed: map<string, Kernel>, queried: map<string, Kernel>,
                                instances: seq<Instance>, reports: map<string, seq<Instance>>)
    requires forall name :: if name in reports then reports[name] == OfName(instances, name) != []
                            else OfName(instances, name) == []
    requires HoldsMeans(streamed, instances)
    requires queried.Keys == reports.Keys
    requires forall name :: name in reports ==> queried[name] == PlainMean(reports[name])
    ensures streamed == queried
  {
    forall name ensures name in streamed <==> name in queried
      ensures name in streamed ==> streamed[name] == queried[name]
    {
      assert HoldsMean(streamed, instances, name);
    }
  }
}
