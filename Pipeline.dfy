/**
 * The per-tick streaming pipeline of the script: the append-only history,
 * the two display buffers (normal and anomalous points, each an x-list and
 * a y-list), the tick counter, and the lower x-bound of the visible window.
 *
 * The buffers are specified by a function of the history alone
 * (TicksWhere): after n ticks they hold, in order, exactly the ticks of the
 * current window [WindowStartAfter(n), n) with the label each tick received
 * when it arrived.
 */
module Pipeline {
  import opened Statistics
  import opened Classifier

  /** Number of ticks shown in one window before the display is reset. */
  const WindowSize: nat := 100

  /** The reset rule, checked at the start of a tick against the ticks completed so far. */
  predicate ResetDue(n: nat)
  {
    n % WindowSize == 0 && n != 0
  }

  /** Lower x-bound of the visible window once `n` ticks have completed. */
  function WindowStartAfter(n: nat): (w: nat)
    ensures w <= n && w % WindowSize == 0
    ensures n > 0 ==> w < n <= w + WindowSize
  {
    if n == 0 then 0 else (n - 1) / WindowSize * WindowSize
  }

  /** A tick moves the window to [n, n + 100) exactly when the reset fires, and leaves it otherwise. */
  lemma WindowStartStep(n: nat)
    ensures WindowStartAfter(n + 1) == if ResetDue(n) then n else WindowStartAfter(n)
  {
  }

  /** Whether tick `k` was flagged: its value against the history up to and including itself. */
  predicate Flagged(h: seq<real>, k: nat)
    requires k < |h|
  {
    IsAnomaly(h[..k + 1], h[k])
  }

  /** The ticks of [lo, hi), in increasing order, whose label is `flag`. */
  function TicksWhere(h: seq<real>, lo: nat, hi: nat, flag: bool): seq<nat>
    requires lo <= hi <= |h|
    decreases hi
  {
    if lo == hi then []
    else TicksWhere(h, lo, hi - 1, flag) + (if Flagged(h, hi - 1) == flag then [hi - 1] else [])
  }

  /** TicksWhere lists only ticks of [lo, hi). */
  lemma {:induction false} TicksWhereRange(h: seq<real>, lo: nat, hi: nat, flag: bool)
    requires lo <= hi <= |h|
    ensures forall i :: 0 <= i < |TicksWhere(h, lo, hi, flag)| ==> lo <= TicksWhere(h, lo, hi, flag)[i] < hi
    decreases hi
  {
    if lo < hi {
      TicksWhereRange(h, lo, hi - 1, flag);
    }
  }

  /** TicksWhere lists its ticks in strictly increasing order. */
  lemma {:induction false} TicksWhereIncreasing(h: seq<real>, lo: nat, hi: nat, flag: bool)
    requires lo <= hi <= |h|
    ensures forall i, j :: 0 <= i < j < |TicksWhere(h, lo, hi, flag)| ==>
              TicksWhere(h, lo, hi, flag)[i] < TicksWhere(h, lo, hi, flag)[j]
    decreases hi
  {
    if lo < hi {
      var prev := TicksWhere(h, lo, hi - 1, flag);
      TicksWhereIncreasing(h, lo, hi - 1, flag);
      TicksWhereRange(h, lo, hi - 1, flag);
      var last: seq<nat> := if Flagged(h, hi - 1) == flag then [hi - 1] else [];
      var r := TicksWhere(h, lo, hi, flag);
      assert r == prev + last;
      forall i, j | 0 <= i < j < |r|
        ensures r[i] < r[j]
      {
        assert r[i] == prev[i] < hi - 1;
        if j < |prev| {
          assert r[j] == prev[j];
        } else {
          assert r[j] == last[0] == hi - 1;
        }
      }
    }
  }

  /** A tick of [lo, hi) is listed by TicksWhere exactly when its label is `flag`. */
  lemma {:induction false} TicksWhereMembers(h: seq<real>, lo: nat, hi: nat, flag: bool)
    requires lo <= hi <= |h|
    ensures forall k :: lo <= k < hi ==> (k in TicksWhere(h, lo, hi, flag) <==> Flagged(h, k) == flag)
    decreases hi
  {
    if lo < hi {
      TicksWhereMembers(h, lo, hi - 1, flag);
      TicksWhereRange(h, lo, hi - 1, flag);
    }
  }

  /** The labels of a tick depend only on the history up to that tick. */
  lemma {:induction false} TicksWhereStable(h: seq<real>, g: seq<real>, lo: nat, hi: nat, flag: bool)
    requires lo <= hi <= |h| && hi <= |g| && h[..hi] == g[..hi]
    ensures TicksWhere(h, lo, hi, flag) == TicksWhere(g, lo, hi, flag)
  {
    if lo < hi {
      assert h[..hi - 1] == g[..hi - 1] by {
        assert h[..hi - 1] == h[..hi][..hi - 1];
        assert g[..hi - 1] == g[..hi][..hi - 1];
      }
      TicksWhereStable(h, g, lo, hi - 1, flag);
      assert h[..hi] == g[..hi];
      assert h[hi - 1] == h[..hi][hi - 1] == g[..hi][hi - 1] == g[hi - 1];
      assert h[..hi] == h[..hi - 1 + 1];
    }
  }

  /** Every tick of [lo, hi) is in exactly one of the two lists. */
  lemma {:induction false} TicksPartition(h: seq<real>, lo: nat, hi: nat)
    requires lo <= hi <= |h|
    ensures |TicksWhere(h, lo, hi, true)| + |TicksWhere(h, lo, hi, false)| == hi - lo
    ensures forall k :: lo <= k < hi ==> (k in TicksWhere(h, lo, hi, true) <==> k !in TicksWhere(h, lo, hi, false))
    decreases hi
  {
    if lo < hi {
      TicksPartition(h, lo, hi - 1);
    }
    TicksWhereMembers(h, lo, hi, true);
    TicksWhereMembers(h, lo, hi, false);
  }

  /** The newest tick is flagged by testing its value against the whole history. */
  lemma FlaggedLast(h: seq<real>, v: real)
    ensures Flagged(h + [v], |h|) == IsAnomaly(h + [v], v)
  {
    assert (h + [v])[..|h| + 1] == h + [v];
  }

  /** Appending a value adds its tick, and nothing else, to the list of its label. */
  lemma TicksAppend(h: seq<real>, v: real, lo: nat, flag: bool)
    requires lo <= |h|
    ensures TicksWhere(h + [v], lo, |h| + 1, flag)
              == TicksWhere(h, lo, |h|, flag) + (if Flagged(h + [v], |h|) == flag then [|h|] else [])
  {
    var n, g := |h|, h + [v];
    assert g[..n] == h[..n];
    TicksWhereStable(h, g, lo, n, flag);
  }

  /**
   * One tick on the specification: the window either restarts at `n` or
   * stays, the earlier ticks of the window keep their labels, and tick `n`
   * lands in the list of its own label.
   */
  lemma TicksStep(h: seq<real>, v: real, flag: bool)
    ensures var n := |h|;
            var before := if ResetDue(n) then [] else TicksWhere(h, WindowStartAfter(n), n, flag);
            TicksWhere(h + [v], WindowStartAfter(n + 1), n + 1, flag)
              == before + (if Flagged(h + [v], n) == flag then [n] else [])
  {
    var n := |h|;
    WindowStartStep(n);
    if ResetDue(n) {
      TicksAppend(h, v, n, flag);
    } else {
      TicksAppend(h, v, WindowStartAfter(n), flag);
    }
  }

  /** The y-list holds, position by position, the history value at the x-list's tick. */
  ghost predicate Plotted(h: seq<real>, xs: seq<nat>, ys: seq<real>)
  {
    |xs| == |ys| && forall i :: 0 <= i < |xs| ==> xs[i] < |h| && ys[i] == h[xs[i]]
  }

  /** Plotting a new point, at the newest tick, keeps every plotted point on the history. */
  lemma PlottedAppend(h: seq<real>, v: real, xs: seq<nat>, ys: seq<real>, add: bool)
    requires Plotted(h, xs, ys)
    ensures Plotted(h + [v], xs + (if add then [|h|] else []), ys + (if add then [v] else []))
  {
  }

  /**
   * The pipeline's state after |h| ticks with history `h`: the window
   * starts where the reset rule puts it, the x-lists are the window's ticks
   * by label, and the y-lists carry the values of those ticks.
   */
  ghost predicate Consistent(h: seq<real>, nx: seq<nat>, ny: seq<real>, ax: seq<nat>, ay: seq<real>, ws: nat)
  {
    && ws == WindowStartAfter(|h|)
    && nx == TicksWhere(h, ws, |h|, false)
    && ax == TicksWhere(h, ws, |h|, true)
    && Plotted(h, nx, ny)
    && Plotted(h, ax, ay)
  }

  /**
   * One tick preserves consistency: clear the buffers if the reset is due,
   * then append tick n to the buffer of its label, with n the number of
   * ticks completed before this one.
   */
  lemma StepConsistent(h: seq<real>, nx: seq<nat>, ny: seq<real>, ax: seq<nat>, ay: seq<real>, ws: nat, v: real)
    requires Consistent(h, nx, ny, ax, ay, ws)
    ensures var n := |h|;
            var flagged := IsAnomaly(h + [v], v);
            var reset := ResetDue(n);
            Consistent(h + [v],
                       (if reset then [] else nx) + (if flagged then [] else [n]),
                       (if reset then [] else ny) + (if flagged then [] else [v]),
                       (if reset then [] else ax) + (if flagged then [n] else []),
                       (if reset then [] else ay) + (if flagged then [v] else []),
                       if reset then n else ws)
  {
    var n := |h|;
    FlaggedLast(h, v);
    TicksStep(h, v, false);
    TicksStep(h, v, true);
    WindowStartStep(n);
    var flagged := IsAnomaly(h + [v], v);
    var reset := ResetDue(n);
    PlottedAppend(h, v, if reset then [] else nx, if reset then [] else ny, !flagged);
    PlottedAppend(h, v, if reset then [] else ax, if reset then [] else ay, flagged);
  }

  class Pipeline {
    var dataStream: seq<real>
    var normalX: seq<nat>
    var normalY: seq<real>
    var anomalyX: seq<nat>
    var anomalyY: seq<real>
    var rounds: nat
    var windowStart: nat

    ghost predicate Valid()
      reads this
    {
      && rounds == |dataStream|
      && Consistent(dataStream, normalX, normalY, anomalyX, anomalyY, windowStart)
    }

    constructor ()
      ensures Valid()
      ensures dataStream == [] && rounds == 0 && windowStart == 0
      ensures normalX == [] && normalY == [] && anomalyX == [] && anomalyY == []
    {
      dataStream, rounds, windowStart := [], 0, 0;
      normalX, normalY, anomalyX, anomalyY := [], [], [], [];
    }

    /**
     * Start of a tick: reset the display when the completed ticks are a
     * positive multiple of the window size, then record the new value in
     * the history, which is never cleared.
     */
    method GenerateData(v: real) returns (r: real)
      modifies this
      ensures r == v
      ensures dataStream == old(dataStream) + [v] && rounds == old(rounds)
      ensures ResetDue(old(rounds)) ==>
                normalX == [] && normalY == [] && anomalyX == [] && anomalyY == []
                && windowStart == old(rounds)
      ensures !ResetDue(old(rounds)) ==>
                normalX == old(normalX) && normalY == old(normalY)
                && anomalyX == old(anomalyX) && anomalyY == old(anomalyY)
                && windowStart == old(windowStart)
    {
      var length := rounds;
      if length % WindowSize == 0 && length != 0 {
        normalX, normalY, anomalyX, anomalyY := [], [], [], [];
        windowStart := length;
      }
      dataStream := dataStream + [v];
      r := v;
    }

    /**
     * One tick: generate and record `v`, classify it against the history
     * that already contains it, append (tick, v) to the matching buffer and
     * advance the tick count.
     */
    method UpdatePlot(v: real)
      requires Valid()
      modifies this
      ensures Valid()
      ensures dataStream == old(dataStream) + [v] && rounds == old(rounds) + 1
      ensures windowStart == if ResetDue(old(rounds)) then old(rounds) else old(windowStart)
      ensures var flagged := IsAnomaly(old(dataStream) + [v], v);
              var reset := ResetDue(old(rounds));
              && normalX == (if reset then [] else old(normalX)) + (if flagged then [] else [old(rounds)])
              && normalY == (if reset then [] else old(normalY)) + (if flagged then [] else [v])
              && anomalyX == (if reset then [] else old(anomalyX)) + (if flagged then [old(rounds)] else [])
              && anomalyY == (if reset then [] else old(anomalyY)) + (if flagged then [v] else [])
    {
      ghost var h, nx, ny, ax, ay, ws := dataStream, normalX, normalY, anomalyX, anomalyY, windowStart;
      StepConsistent(h, nx, ny, ax, ay, ws, v);
      var newData := GenerateData(v);
      var isAnomaly := IsAnomaly(dataStream, newData);
      if isAnomaly {
        anomalyX := anomalyX + [rounds];
        anomalyY := anomalyY + [newData];
      } else {
        normalX := normalX + [rounds];
        normalY := normalY + [newData];
      }
      rounds := rounds + 1;
    }
  }

  /**
   * In every reachable state the window spans at most WindowSize ticks and
   * each of its ticks is plotted exactly once, as normal or as anomalous.
   */
  lemma WindowHoldsEachTickOnce(p: Pipeline)
    requires p.Valid()
    ensures p.windowStart <= p.rounds <= p.windowStart + WindowSize
    ensures |p.normalX| + |p.anomalyX| == p.rounds - p.windowStart
    ensures forall k :: p.windowStart <= k < p.rounds ==> (k in p.anomalyX <==> k !in p.normalX)
  {
    TicksPartition(p.dataStream, p.windowStart, p.rounds);
  }

  /**
   * In every reachable state each x-list is strictly increasing, lies in
   * [windowStart, rounds) and is paired, position by position, with a
   * y-list of the same length holding the value recorded at that tick.
   */
  lemma BuffersOrderedAndPaired(p: Pipeline)
    requires p.Valid()
    ensures forall i :: 0 <= i < |p.normalX| ==> p.windowStart <= p.normalX[i] < p.rounds
    ensures forall i :: 0 <= i < |p.anomalyX| ==> p.windowStart <= p.anomalyX[i] < p.rounds
    ensures forall i, j :: 0 <= i < j < |p.normalX| ==> p.normalX[i] < p.normalX[j]
    ensures forall i, j :: 0 <= i < j < |p.anomalyX| ==> p.anomalyX[i] < p.anomalyX[j]
    ensures |p.normalX| == |p.normalY| && |p.anomalyX| == |p.anomalyY|
    ensures forall i :: 0 <= i < |p.normalX| ==> p.normalY[i] == p.dataStream[p.normalX[i]]
    ensures forall i :: 0 <= i < |p.anomalyX| ==> p.anomalyY[i] == p.dataStream[p.anomalyX[i]]
  {
    TicksWhereRange(p.dataStream, p.windowStart, p.rounds, false);
    TicksWhereRange(p.dataStream, p.windowStart, p.rounds, true);
    TicksWhereIncreasing(p.dataStream, p.windowStart, p.rounds, false);
    TicksWhereIncreasing(p.dataStream, p.windowStart, p.rounds, true);
  }

  /** After 101 ticks the window has been reset once: it starts at 100 and shows only tick 100. */
  lemma ResetAfterHundredTicks(p: Pipeline)
    requires p.Valid() && p.rounds == WindowSize + 1
    ensures p.windowStart == 100
    ensures (p.normalX == [100] && p.anomalyX == []) || (p.normalX == [] && p.anomalyX == [100])
  {
    var h := p.dataStream;
    assert TicksWhere(h, 100, 100, true) == [] && TicksWhere(h, 100, 100, false) == [];
  }

  /** The statistics of the history [10, 10, 10, 100]: 100 lies 1.73 deviations above the mean. */
  lemma FourValueStatistics()
    ensures Mean([10.0, 10.0, 10.0, 100.0]) == 32.5
    ensures Variance([10.0, 10.0, 10.0, 100.0]) == 1518.75
    ensures IsAnomaly([10.0, 10.0, 10.0, 100.0], 100.0)
  {
    var h1, h2, h3, h := [10.0], [10.0, 10.0], [10.0, 10.0, 10.0], [10.0, 10.0, 10.0, 100.0];
    assert h1[..0] == [] && h2[..1] == h1 && h3[..2] == h2 && h[..3] == h3;
    assert Sum(h1) == 10.0;
    assert Sum(h2) == 20.0;
    assert Sum(h3) == 30.0;
    assert Sum(h) == 130.0;
    assert SumSqDev(h1, 32.5) == 506.25;
    assert SumSqDev(h2, 32.5) == 1012.5;
    assert SumSqDev(h3, 32.5) == 1518.75;
    assert SumSqDev(h, 32.5) == 6075.0;
  }

  /** A fresh pipeline fed 10 plots tick 0 as normal. */
  method FirstTen() returns (p: Pipeline)
    ensures fresh(p) && p.Valid()
    ensures p.dataStream == [10.0] && p.rounds == 1
    ensures p.normalX == [0] && p.normalY == [10.0] && p.anomalyX == [] && p.anomalyY == []
  {
    p := new Pipeline();
    FirstValueNeverFlagged(10.0);
    assert p.dataStream + [10.0] == [10.0];
    p.UpdatePlot(10.0);
  }

  /** Fed 10 again, the pipeline plots tick 1 as normal. */
  method SecondTen(p: Pipeline)
    requires p.Valid()
    requires p.dataStream == [10.0] && p.rounds == 1
    requires p.normalX == [0] && p.normalY == [10.0] && p.anomalyX == [] && p.anomalyY == []
    modifies p
    ensures p.Valid()
    ensures p.dataStream == [10.0, 10.0] && p.rounds == 2
    ensures p.normalX == [0, 1] && p.normalY == [10.0, 10.0] && p.anomalyX == [] && p.anomalyY == []
  {
    ghost var h := p.dataStream + [10.0];
    assert h == [10.0, 10.0];
    assert AllEqual(h) by {
      assert forall i :: 0 <= i < |h| ==> h[i] == 10.0;
    }
    AllEqualNeverFlagged(h, 10.0);
    p.UpdatePlot(10.0);
  }

  /** Fed 10 a third time, the pipeline plots tick 2 as normal. */
  method ThirdTen(p: Pipeline)
    requires p.Valid()
    requires p.dataStream == [10.0, 10.0] && p.rounds == 2
    requires p.normalX == [0, 1] && p.normalY == [10.0, 10.0] && p.anomalyX == [] && p.anomalyY == []
    modifies p
    ensures p.Valid()
    ensures p.dataStream == [10.0, 10.0, 10.0] && p.rounds == 3
    ensures p.normalX == [0, 1, 2] && p.normalY == [10.0, 10.0, 10.0] && p.anomalyX == [] && p.anomalyY == []
  {
    ghost var h := p.dataStream + [10.0];
    assert h == [10.0, 10.0, 10.0];
    assert AllEqual(h) by {
      assert forall i :: 0 <= i < |h| ==> h[i] == 10.0;
    }
    AllEqualNeverFlagged(h, 10.0);
    p.UpdatePlot(10.0);
  }

  /**
   * Feeding 10, 10, 10, 100 to a fresh pipeline plots ticks 0, 1 and 2 as
   * normal and tick 3 as an anomaly.
   */
  method FourValueScenario() returns (nx: seq<nat>, ny: seq<real>, ax: seq<nat>, ay: seq<real>)
    ensures nx == [0, 1, 2] && ny == [10.0, 10.0, 10.0]
    ensures ax == [3] && ay == [100.0]
  {
    var p := FirstTen();
    SecondTen(p);
    ThirdTen(p);
    FourValueStatistics();
    assert p.dataStream + [100.0] == [10.0, 10.0, 10.0, 100.0];
    p.UpdatePlot(100.0);
    nx, ny, ax, ay := p.normalX, p.normalY, p.anomalyX, p.anomalyY;
  }
}
