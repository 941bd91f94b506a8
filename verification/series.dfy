/** The two parallel plot buffers `time_axis` / `data_pnts` and the per-frame update the
    reader thread applies to them. */
module Series {

  /** One decoded frame: a timestamp and a data point. */
  datatype Sample = Sample(time: int, value: int)

  /** `times[i]` is the timestamp of `values[i]`. */
  datatype TimeSeries = TimeSeries(times: seq<int>, values: seq<int>)

  /** Both lists as they are created at start-up, and after a resync. */
  const Empty := TimeSeries([], [])

  /** The lengths agree, so every value has its timestamp. */
  predicate Aligned(b: TimeSeries) {
    |b.times| == |b.values|
  }

  predicate NonDecreasing(s: seq<int>) {
    forall i, j :: 0 <= i <= j < |s| ==> s[i] <= s[j]
  }

  /** Python's `xs[i]` for `-n <= i < n`: a negative index counts from the end. */
  function PyIndex(i: int, n: nat): (k: nat)
    requires -(n as int) <= i < n
    ensures k < n
    ensures i >= 0 ==> k == i
    ensures i < 0 ==> k == n + i
  {
    if i < 0 then n + i else i
  }

  function AppendTime(b: TimeSeries, t: int): TimeSeries {
    TimeSeries(b.times + [t], b.values)
  }

  function AppendValue(b: TimeSeries, v: int): TimeSeries {
    TimeSeries(b.times, b.values + [v])
  }

  /** The zig-zag check, run after both appends: the newest timestamp is compared with
      `times[len - 2]`, which for a one-element list is `times[-1]`, the newest itself. */
  function Resync(b: TimeSeries): (r: TimeSeries)
    requires |b.times| > 0
    ensures r == b || r == Empty
    ensures |b.times| == 1 ==> r == b
    ensures |b.times| >= 2 ==> (r == Empty <==> b.times[|b.times| - 1] < b.times[|b.times| - 2])
  {
    var n := |b.times|;
    if b.times[n - 1] < b.times[PyIndex(n - 2, n)] then Empty else b
  }

  /** The new timestamp `t` goes backwards with respect to the newest buffered one. */
  predicate Discards(b: TimeSeries, t: int) {
    |b.times| > 0 && t < b.times[|b.times| - 1]
  }

  /** One iteration of the reader loop on a decoded frame: append `t` and `v`, then clear
      both lists if the time went backwards. The clear comes after the append, so the
      offending sample is dropped together with the history. */
  function Step(b: TimeSeries, t: int, v: int): (r: TimeSeries)
    ensures Discards(b, t) ==> r == Empty
    ensures !Discards(b, t) ==> r == TimeSeries(b.times + [t], b.values + [v])
    ensures |b.times| == 0 ==> r.times == [t] && r.values == b.values + [v]
    ensures Aligned(b) ==> Aligned(r)
  {
    Resync(AppendValue(AppendTime(b, t), v))
  }

  /** A sample is dropped exactly when its time goes backwards; otherwise it is kept. */
  lemma StepKeepsOrNot(b: TimeSeries, t: int, v: int)
    ensures |Step(b, t, v).times| == 0 <==> Discards(b, t)
  {
  }

  /** Non-decreasing timestamps are an invariant of `Step`. */
  lemma StepKeepsOrder(b: TimeSeries, t: int, v: int)
    ensures NonDecreasing(b.times) ==> NonDecreasing(Step(b, t, v).times)
  {
    if NonDecreasing(b.times) && !Discards(b, t) {
      var s := b.times + [t];
      forall i, j | 0 <= i <= j < |s|
        ensures s[i] <= s[j]
      {
        if j == |s| - 1 && i < j {
          assert s[i] <= b.times[|b.times| - 1];
        }
      }
    }
  }

  /** The reader loop folded over a sequence of decoded frames. */
  function Run(b: TimeSeries, ss: seq<Sample>): (r: TimeSeries)
    ensures Aligned(b) ==> Aligned(r)
    ensures NonDecreasing(b.times) ==> NonDecreasing(r.times)
    decreases |ss|
  {
    if |ss| == 0 then b
    else
      var b' := Step(b, ss[0].time, ss[0].value);
      StepKeepsOrder(b, ss[0].time, ss[0].value);
      Run(b', ss[1..])
  }

  function Times(ss: seq<Sample>): (ts: seq<int>)
    ensures |ts| == |ss|
    ensures forall i :: 0 <= i < |ss| ==> ts[i] == ss[i].time
  {
    seq(|ss|, i requires 0 <= i < |ss| => ss[i].time)
  }

  function Values(ss: seq<Sample>): (vs: seq<int>)
    ensures |vs| == |ss|
    ensures forall i :: 0 <= i < |ss| ==> vs[i] == ss[i].value
  {
    seq(|ss|, i requires 0 <= i < |ss| => ss[i].value)
  }

  /** The buffers that hold exactly the samples `ss`, in order. */
  function FromSamples(ss: seq<Sample>): (b: TimeSeries)
    ensures Aligned(b) && |b.times| == |ss|
  {
    TimeSeries(Times(ss), Values(ss))
  }

  /** Where the current run of samples begins: just past the last sample whose time went
      backwards with respect to a kept predecessor, or 0 if there was none. Stated on the
      input alone, without the buffers. */
  function Start(ss: seq<Sample>): (k: nat)
    ensures k <= |ss|
  {
    if |ss| == 0 then 0
    else
      var n := |ss|;
      var k := Start(ss[..n - 1]);
      if k < n - 1 && ss[n - 1].time < ss[n - 2].time then n else k
  }

  lemma {:induction false} RunSnoc(b: TimeSeries, ss: seq<Sample>, s: Sample)
    ensures Run(b, ss + [s]) == Step(Run(b, ss), s.time, s.value)
    decreases |ss|
  {
    if |ss| > 0 {
      assert (ss + [s])[1..] == ss[1..] + [s];
      RunSnoc(Step(b, ss[0].time, ss[0].value), ss[1..], s);
    }
  }

  lemma FromSamplesSnoc(ss: seq<Sample>, s: Sample)
    ensures FromSamples(ss + [s]) == TimeSeries(FromSamples(ss).times + [s.time], FromSamples(ss).values + [s.value])
  {
    assert Times(ss + [s]) == Times(ss) + [s.time];
    assert Values(ss + [s]) == Values(ss) + [s.value];
  }

  /** A frame arriving on buffers that hold `init[k..]`: what `Start` predicts for it. */
  lemma StepOnSuffix(init: seq<Sample>, k: nat, s: Sample)
    requires k <= |init|
    ensures k < |init| && s.time < init[|init| - 1].time ==>
              Step(FromSamples(init[k..]), s.time, s.value) == Empty
    ensures !(k < |init| && s.time < init[|init| - 1].time) ==>
              Step(FromSamples(init[k..]), s.time, s.value) == FromSamples((init + [s])[k..])
  {
    var kept := FromSamples(init[k..]);
    if k < |init| {
      assert kept.times[|kept.times| - 1] == init[|init| - 1].time;
    }
    assert (init + [s])[k..] == init[k..] + [s];
    FromSamplesSnoc(init[k..], s);
  }

  /** Starting from the empty buffers, the buffers always hold a contiguous, unreordered
      suffix of the frames received: those since the last backward jump. */
  lemma {:induction false} RunKeepsSuffix(ss: seq<Sample>)
    ensures Run(Empty, ss) == FromSamples(ss[Start(ss)..])
    decreases |ss|
  {
    if |ss| == 0 {
      assert FromSamples([]) == Empty;
    } else {
      var n := |ss|;
      var init, s := ss[..n - 1], ss[n - 1];
      assert ss == init + [s];
      RunKeepsSuffix(init);
      RunSnoc(Empty, init, s);
      StepOnSuffix(init, Start(init), s);
      assert FromSamples(ss[n..]) == Empty;
    }
  }

  /** No backward jump, no loss: with non-decreasing timestamps the run covers everything. */
  lemma {:induction false} MonotoneStartsAtZero(ss: seq<Sample>)
    requires NonDecreasing(Times(ss))
    ensures Start(ss) == 0
    decreases |ss|
  {
    if |ss| > 0 {
      var init := ss[..|ss| - 1];
      assert Times(init) == Times(ss)[..|ss| - 1];
      MonotoneStartsAtZero(init);
      if |ss| > 1 {
        assert Times(ss)[|ss| - 2] <= Times(ss)[|ss| - 1];
      }
    }
  }

  /** Frames with non-decreasing timestamps are all plotted, in order: after N frames both
      lists have length N and hold exactly the frames' fields. */
  lemma MonotoneKeepsAll(ss: seq<Sample>)
    requires NonDecreasing(Times(ss))
    ensures Run(Empty, ss) == FromSamples(ss)
  {
    MonotoneStartsAtZero(ss);
    RunKeepsSuffix(ss);
    assert ss[0..] == ss;
  }

  /** A backward jump right after a kept sample leaves both lists empty, the offending
      sample included. */
  lemma BackwardJumpClears(ss: seq<Sample>, s: Sample)
    requires |Run(Empty, ss).times| > 0
    requires s.time < ss[|ss| - 1].time
    ensures Run(Empty, ss + [s]) == Empty
  {
    RunKeepsSuffix(ss);
    RunSnoc(Empty, ss, s);
    StepOnSuffix(ss, Start(ss), s);
  }

  /** Two frames with times 10 then 5: the second is dropped along with the first. */
  lemma BackwardPairEmpties()
    ensures Run(Empty, [Sample(10, 1), Sample(5, 2)]) == Empty
  {
  }

  /** Two frames with times 1 then 2 give `times = [1, 2]`, `values = [50, 55]`. */
  lemma ForwardPairKept()
    ensures Run(Empty, [Sample(1, 50), Sample(2, 55)]) == TimeSeries([1, 2], [50, 55])
  {
    var ss := [Sample(1, 50), Sample(2, 55)];
    assert ss[1..] == [Sample(2, 55)];
    assert Step(Empty, 1, 50) == TimeSeries([1], [50]);
    assert Step(TimeSeries([1], [50]), 2, 55) == TimeSeries([1, 2], [50, 55]);
  }
}
