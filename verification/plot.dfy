/** The axis limits `update_plot` hands to the plot on every animation tick. */
module Plot {
  import opened Wrappers
  import opened Series

  /** How many time units of history the x-axis shows behind the newest sample. */
  const X_SPAN: int := 50
  /** Head-room above the largest and below the smallest value on the y-axis. */
  const Y_MARGIN: int := 10

  /** The limits passed to `set_xlim(left, right)` or `set_ylim(bottom, top)`. */
  datatype Window = Window(lo: int, hi: int)

  function SeqMin(s: seq<int>): (m: int)
    requires |s| > 0
    ensures forall i :: 0 <= i < |s| ==> m <= s[i]
    ensures exists i :: 0 <= i < |s| && s[i] == m
  {
    if |s| == 1 then s[0]
    else
      var m := SeqMin(s[1..]);
      assert forall i :: 1 <= i < |s| ==> s[1..][i - 1] == s[i];
      if s[0] <= m then s[0] else m
  }

  function SeqMax(s: seq<int>): (m: int)
    requires |s| > 0
    ensures forall i :: 0 <= i < |s| ==> s[i] <= m
    ensures exists i :: 0 <= i < |s| && s[i] == m
  {
    if |s| == 1 then s[0]
    else
      var m := SeqMax(s[1..]);
      assert forall i :: 1 <= i < |s| ==> s[1..][i - 1] == s[i];
      if s[0] >= m then s[0] else m
  }

  /** The scrolling x-limits: from 50 units before the newest timestamp (never below 0) to
      one past it; no new limits while there are no samples. */
  function XWindow(times: seq<int>): (r: Option<Window>)
    ensures r.Some? <==> |times| > 0
    ensures r.Some? ==> r.value.lo >= 0 && r.value.hi == times[|times| - 1] + 1
    ensures r.Some? ==> r.value.hi - r.value.lo <= X_SPAN + 1
    ensures r.Some? && times[|times| - 1] >= X_SPAN ==> r.value.hi - r.value.lo == X_SPAN + 1
    ensures r.Some? && times[|times| - 1] < X_SPAN ==> r.value.lo == 0
    ensures r.Some? ==> (r.value.lo < r.value.hi <==> times[|times| - 1] >= 0)
  {
    if |times| > 0 then
      var last := times[|times| - 1];
      Some(Window(if last - X_SPAN > 0 then last - X_SPAN else 0, last + 1))
    else None
  }

  /** The y-limits: 10 below the smallest to 10 above the largest value; no new limits while
      there are no samples. */
  function YWindow(values: seq<int>): (r: Option<Window>)
    ensures r.Some? <==> |values| > 0
    ensures r.Some? ==> r.value.lo + 2 * Y_MARGIN <= r.value.hi
    ensures r.Some? ==> forall i :: 0 <= i < |values| ==>
                          r.value.lo + Y_MARGIN <= values[i] <= r.value.hi - Y_MARGIN
    ensures r.Some? ==> exists i :: 0 <= i < |values| && values[i] == r.value.lo + Y_MARGIN
    ensures r.Some? ==> exists i :: 0 <= i < |values| && values[i] == r.value.hi - Y_MARGIN
  {
    if |values| > 0 then Some(Window(SeqMin(values) - Y_MARGIN, SeqMax(values) + Y_MARGIN))
    else None
  }

  /** On buffers kept in time order, every sample from the last 50 time units (and not
      before time 0) lies inside the x-window. */
  lemma {:induction false} XWindowShowsRecent(b: TimeSeries, i: nat)
    requires NonDecreasing(b.times) && i < |b.times|
    requires b.times[i] >= 0 && b.times[i] >= b.times[|b.times| - 1] - X_SPAN
    ensures XWindow(b.times).Some?
    ensures XWindow(b.times).value.lo <= b.times[i] < XWindow(b.times).value.hi
  {
    assert b.times[i] <= b.times[|b.times| - 1];
  }

  /** A frame that is kept never moves the x-window backwards. */
  lemma XWindowScrollsForward(b: TimeSeries, t: int, v: int)
    requires |b.times| > 0 && !Discards(b, t)
    ensures XWindow(Step(b, t, v).times).value.lo >= XWindow(b.times).value.lo
    ensures XWindow(Step(b, t, v).times).value.hi >= XWindow(b.times).value.hi
  {
  }

  /** values [10, 30, 20] give y-limits [0, 40]. */
  lemma YWindowExample()
    ensures YWindow([10, 30, 20]) == Some(Window(0, 40))
  {
  }

  /** A newest timestamp of 100 gives x-limits [50, 101]. */
  lemma XWindowExample(earlier: seq<int>)
    ensures XWindow(earlier + [100]) == Some(Window(50, 101))
  {
  }
}
