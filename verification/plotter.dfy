/** The telemetry window of `data/plotter.js`: three parallel arrays
    (time labels, current angle, target angle) kept as a bounded FIFO by
    `updateAnglePlot`. The clock that makes the label and the redraw are
    left to the caller. */
module Plotter {
  /** One plotted point. */
  datatype Sample = Sample(timeLabel: seq<char>, current: real, target: real)

  /** The `angleData` object. */
  datatype Window = Window(labels: seq<seq<char>>, current: seq<real>, target: seq<real>)

  const EmptyWindow := Window([], [], [])

  /** The three arrays describe the same points. */
  predicate Aligned(w: Window) {
    |w.labels| == |w.current| == |w.target|
  }

  /** `Array.prototype.shift`: drops the first element; no-op when empty. */
  function Shift<T>(s: seq<T>): (r: seq<T>)
    ensures |s| > 0 ==> |r| == |s| - 1 && s == [s[0]] + r
    ensures |s| == 0 ==> r == s
  {
    if |s| == 0 then s else s[1..]
  }

  function ShiftAll(w: Window): Window {
    Window(Shift(w.labels), Shift(w.current), Shift(w.target))
  }

  function PushAll(w: Window, p: Sample): Window {
    Window(w.labels + [p.timeLabel], w.current + [p.current], w.target + [p.target])
  }

  /** The three arrays of a run of points, oldest first. */
  function WindowOf(h: seq<Sample>): (w: Window)
    ensures Aligned(w) && |w.labels| == |h|
    ensures forall i :: 0 <= i < |h| ==> w.labels[i] == h[i].timeLabel
    ensures forall i :: 0 <= i < |h| ==> w.current[i] == h[i].current && w.target[i] == h[i].target
  {
    Window(seq(|h|, i requires 0 <= i < |h| => h[i].timeLabel),
           seq(|h|, i requires 0 <= i < |h| => h[i].current),
           seq(|h|, i requires 0 <= i < |h| => h[i].target))
  }

  /** The newest `n` points of a history (all of them when there are fewer). */
  function Newest(h: seq<Sample>, n: nat): (r: seq<Sample>)
    ensures |r| == if |h| <= n then |h| else n
  {
    if |h| <= n then h else h[|h| - n..]
  }

  /** `updateAnglePlot` as written: shift when an array already holds MORE
      than 50 points, then append; the window therefore holds 51 points in
      steady state. */
  function UpdateAnglePlotAsWritten(w: Window, p: Sample): (r: Window)
    ensures Aligned(w) ==> Aligned(r)
    ensures |w.labels| <= 51 ==> |r.labels| <= 51
    ensures |r.labels| > 0 && |r.current| > 0 && |r.target| > 0
    ensures r.labels[|r.labels| - 1] == p.timeLabel
    ensures r.current[|r.current| - 1] == p.current && r.target[|r.target| - 1] == p.target
  {
    PushAll(if |w.labels| > 50 then ShiftAll(w) else w, p)
  }

  /** `updateAnglePlot` keeping the last 50 points, as its comment says:
      shift when an array already holds 50. */
  function UpdateAnglePlot(w: Window, p: Sample): (r: Window)
    ensures Aligned(w) ==> Aligned(r)
    ensures |w.labels| <= 50 ==> |r.labels| <= 50
    ensures |r.labels| > 0 && |r.current| > 0 && |r.target| > 0
    ensures r.labels[|r.labels| - 1] == p.timeLabel
    ensures r.current[|r.current| - 1] == p.current && r.target[|r.target| - 1] == p.target
  {
    PushAll(if |w.labels| >= 50 then ShiftAll(w) else w, p)
  }

  /** A shift followed by a push on the window of the newest `n` points of
      a history is the window of the newest `n` points once the new point is
      added, provided the shift happens exactly when the window is full. */
  lemma SlideStep(h: seq<Sample>, p: Sample, n: nat)
    requires n >= 1
    ensures var w := WindowOf(Newest(h, n));
            PushAll(if |w.labels| >= n then ShiftAll(w) else w, p) == WindowOf(Newest(h + [p], n))
  {
    var w := WindowOf(Newest(h, n));
    var r := PushAll(if |w.labels| >= n then ShiftAll(w) else w, p);
    var e := WindowOf(Newest(h + [p], n));
    assert |r.labels| == |e.labels|;
    if |h| >= n {
      assert Newest(h + [p], n) == Newest(h, n)[1..] + [p];
    } else {
      assert Newest(h + [p], n) == Newest(h, n) + [p];
    }
    assert r.labels == e.labels;
    assert r.current == e.current;
    assert r.target == e.target;
  }

  function RunAsWritten(w: Window, ps: seq<Sample>): Window
    decreases |ps|
  {
    if |ps| == 0 then w else RunAsWritten(UpdateAnglePlotAsWritten(w, ps[0]), ps[1..])
  }

  function Run(w: Window, ps: seq<Sample>): Window
    decreases |ps|
  {
    if |ps| == 0 then w else Run(UpdateAnglePlot(w, ps[0]), ps[1..])
  }

  /** From the window of the newest 51 points of `h`, further updates as
      written keep exactly the newest 51 points of the whole history. */
  lemma {:induction false} RunAsWrittenKeepsNewest(h: seq<Sample>, ps: seq<Sample>)
    ensures RunAsWritten(WindowOf(Newest(h, 51)), ps) == WindowOf(Newest(h + ps, 51))
    decreases |ps|
  {
    if |ps| == 0 {
      assert h + ps == h;
    } else {
      SlideStep(h, ps[0], 51);
      assert h + [ps[0]] + ps[1..] == h + ps;
      RunAsWrittenKeepsNewest(h + [ps[0]], ps[1..]);
    }
  }

  /** The same with the corrected update and 50 points. */
  lemma {:induction false} RunKeepsNewest(h: seq<Sample>, ps: seq<Sample>)
    ensures Run(WindowOf(Newest(h, 50)), ps) == WindowOf(Newest(h + ps, 50))
    decreases |ps|
  {
    if |ps| == 0 {
      assert h + ps == h;
    } else {
      SlideStep(h, ps[0], 50);
      assert h + [ps[0]] + ps[1..] == h + ps;
      RunKeepsNewest(h + [ps[0]], ps[1..]);
    }
  }

  /** From the page's empty arrays, the plot as written shows the newest 51
      points, in order: 51 updates already fill it past the 50 its comment
      promises. */
  lemma PlotShowsNewest51(ps: seq<Sample>)
    ensures RunAsWritten(EmptyWindow, ps) == WindowOf(Newest(ps, 51))
    ensures |ps| >= 51 ==> |RunAsWritten(EmptyWindow, ps).labels| == 51
  {
    assert WindowOf(Newest([], 51)) == EmptyWindow;
    RunAsWrittenKeepsNewest([], ps);
    assert [] + ps == ps;
  }

  /** With the corrected bound the plot shows the newest 50 points. */
  lemma PlotShowsNewest50(ps: seq<Sample>)
    ensures Run(EmptyWindow, ps) == WindowOf(Newest(ps, 50))
    ensures |Run(EmptyWindow, ps).labels| <= 50
  {
    assert WindowOf(Newest([], 50)) == EmptyWindow;
    RunKeepsNewest([], ps);
    assert [] + ps == ps;
  }

  /** On a full window a shift drops exactly the oldest point of each array
      and keeps the others in order. */
  lemma ShiftDropsOldest(w: Window, p: Sample)
    requires Aligned(w) && |w.labels| > 50
    ensures var r := UpdateAnglePlotAsWritten(w, p);
            && r.labels == w.labels[1..] + [p.timeLabel]
            && r.current == w.current[1..] + [p.current]
            && r.target == w.target[1..] + [p.target]
  {
  }
}
