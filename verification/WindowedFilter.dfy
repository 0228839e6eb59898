/** Kathleen Nichols' windowed maximum with three estimates
    (internal/congestion/bbr/windowed_filter.go). */
module WindowedFilter {

  /** A sample and the round it was taken in. */
  datatype Estimate = Estimate(sample: nat, time: nat)

  /** Best, second best and third best. */
  datatype Estimates = Estimates(best: Estimate, second: Estimate, third: Estimate)

  const NO_ESTIMATES := Estimates(Estimate(0, 0), Estimate(0, 0), Estimate(0, 0))

  /** newTime - e.time in 64-bit unsigned arithmetic. */
  function Age(newTime: nat, e: Estimate): int {
    if newTime >= e.time then newTime - e.time else newTime - e.time + 0x1_0000_0000_0000_0000
  }

  function Updated(f: Estimates, window: nat, x: Estimate): (f': Estimates) {
    if f.best.sample == 0 || x.sample >= f.best.sample || Age(x.time, f.third) > window then
      Estimates(x, x, x)
    else
      var second := if x.sample >= f.second.sample then x else f.second;
      var third := if x.sample >= f.second.sample || x.sample >= f.third.sample then x else f.third;
      if Age(x.time, f.best) > window then
        if Age(x.time, second) > window then Estimates(third, x, x) else Estimates(second, third, x)
      else if second.sample == f.best.sample && Age(x.time, second) > window / 4 then
        Estimates(f.best, x, x)
      else if third.sample == second.sample && Age(x.time, third) > window / 2 then
        Estimates(f.best, second, x)
      else Estimates(f.best, second, third)
  }

  class WindowedFilter {
    var windowLength: nat
    var estimates: array<Estimate>

    ghost predicate Valid()
      reads this
    {
      estimates.Length == 3
    }

    function View(): Estimates
      reads this, estimates
      requires Valid()
    {
      Estimates(estimates[0], estimates[1], estimates[2])
    }

    constructor (windowLength: nat)
      ensures Valid() && fresh(estimates) && View() == NO_ESTIMATES && this.windowLength == windowLength
    {
      this.windowLength := windowLength;
      estimates := new Estimate[3](_ => Estimate(0, 0));
    }

    method Reset(newSample: nat, newTime: nat)
      requires Valid()
      modifies estimates
      ensures var x := Estimate(newSample, newTime); View() == Estimates(x, x, x)
    {
      estimates[2] := Estimate(newSample, newTime);
      estimates[1] := estimates[2];
      estimates[0] := estimates[1];
    }

    method Update(newSample: nat, newTime: nat)
      requires Valid()
      modifies estimates
      ensures View() == Updated(old(View()), windowLength, Estimate(newSample, newTime))
    {
      if estimates[0].sample == 0 || newSample >= estimates[0].sample || Age(newTime, estimates[2]) > windowLength {
        Reset(newSample, newTime);
        return;
      }
      if newSample >= estimates[1].sample {
        estimates[1] := Estimate(newSample, newTime);
        estimates[2] := estimates[1];
      } else if newSample >= estimates[2].sample {
        estimates[2] := Estimate(newSample, newTime);
      }
      if Age(newTime, estimates[0]) > windowLength {
        estimates[0] := estimates[1];
        estimates[1] := estimates[2];
        estimates[2] := Estimate(newSample, newTime);
        if Age(newTime, estimates[0]) > windowLength {
          estimates[0] := estimates[1];
          estimates[1] := estimates[2];
        }
        return;
      }
      if estimates[1].sample == estimates[0].sample && Age(newTime, estimates[1]) > windowLength / 4 {
        estimates[1] := Estimate(newSample, newTime);
        estimates[2] := estimates[1];
        return;
      }
      if estimates[2].sample == estimates[1].sample && Age(newTime, estimates[2]) > windowLength / 2 {
        estimates[2] := Estimate(newSample, newTime);
      }
    }

    method Clear()
      modifies this
      ensures Valid() && fresh(estimates) && View() == NO_ESTIMATES && windowLength == old(windowLength)
    {
      estimates := new Estimate[3](_ => Estimate(0, 0));
    }
  }

  // ----- Runs of updates

  function Run(history: seq<Estimate>, window: nat): Estimates {
    if history == [] then NO_ESTIMATES
    else Updated(Run(history[..|history| - 1], window), window, history[|history| - 1])
  }

  ghost predicate TimesNeverDecrease(history: seq<Estimate>) {
    forall i, j :: 0 <= i <= j < |history| ==> history[i].time <= history[j].time
  }

  /** Estimate e is the i-th sample received, and no later sample beats it. */
  ghost predicate Leads(e: Estimate, history: seq<Estimate>, i: nat) {
    i < |history| && history[i] == e && forall j :: i <= j < |history| ==> history[j].sample <= e.sample
  }

  /** The estimates were received in order, and each leads since. */
  ghost predicate Tracks(f: Estimates, history: seq<Estimate>, i: nat, j: nat, k: nat) {
    i <= j <= k && Leads(f.best, history, i) && Leads(f.second, history, j) && Leads(f.third, history, k)
  }

  lemma LeadsStill(e: Estimate, history: seq<Estimate>, i: nat, x: Estimate)
    requires Leads(e, history, i) && x.sample <= e.sample
    ensures Leads(e, history + [x], i)
  {
  }

  lemma LeadsAtOnce(history: seq<Estimate>, x: Estimate)
    ensures Leads(x, history + [x], |history|)
  {
  }

  lemma UpdateTracks(f: Estimates, history: seq<Estimate>, window: nat, x: Estimate, i: nat, j: nat, k: nat)
    returns (i': nat, j': nat, k': nat)
    requires Tracks(f, history, i, j, k) && TimesNeverDecrease(history + [x])
    ensures Tracks(Updated(f, window, x), history + [x], i', j', k')
    ensures x.time - Updated(f, window, x).best.time <= window
  {
    hide Leads;
    var n, h, f' := |history|, history + [x], Updated(f, window, x);
    Indexed(f, history, i, j, k);
    assert x == h[n] && h[i] == f.best && h[j] == f.second && h[k] == f.third;
    LeadsAtOnce(history, x);
    if f.best.sample == 0 || x.sample >= f.best.sample || Age(x.time, f.third) > window {
      return n, n, n;
    }
    LeadsStill(f.best, history, i, x);
    var a, b := if x.sample >= f.second.sample then n else j, if x.sample >= f.second.sample ||
        x.sample >= f.third.sample then n else k;
    if a == j { LeadsStill(f.second, history, j, x); }
    if b == k { LeadsStill(f.third, history, k, x); }
    i' := if f'.best == f.best then i else if f'.best == h[a] then a else b;
    if Age(x.time, f.best) > window {
      if Age(x.time, h[a]) > window {
        return b, n, n;
      }
      return a, b, n;
    }
    if h[a].sample == f.best.sample && Age(x.time, h[a]) > window / 4 {
      return i, n, n;
    }
    if h[b].sample == h[a].sample && Age(x.time, h[b]) > window / 2 {
      return i, a, n;
    }
    return i, a, b;
  }

  lemma Indexed(f: Estimates, history: seq<Estimate>, i: nat, j: nat, k: nat)
    requires Tracks(f, history, i, j, k)
    ensures i <= j <= k < |history| && history[i] == f.best && history[j] == f.second && history[k] == f.third
    ensures f.best.sample >= f.second.sample >= f.third.sample
  {
  }

  lemma FirstSampleLeads(x: Estimate, window: nat)
    ensures Tracks(Updated(NO_ESTIMATES, window, x), [x], 0, 0, 0) && Updated(NO_ESTIMATES, window, x).best == x
  {
  }

  lemma {:induction false} RunTracks(history: seq<Estimate>, window: nat) returns (i: nat, j: nat, k: nat)
    requires history != [] && TimesNeverDecrease(history)
    ensures Tracks(Run(history, window), history, i, j, k)
    ensures history[|history| - 1].time - Run(history, window).best.time <= window
    decreases |history|
  {
    hide Updated, Leads;
    var n := |history| - 1;
    if n == 0 {
      assert history == [history[0]] && history[..0] == [];
      FirstSampleLeads(history[0], window);
      i, j, k := 0, 0, 0;
    } else {
      var i0, j0, k0 := RunTracks(history[..n], window);
      assert history[..n] + [history[n]] == history;
      i, j, k := UpdateTracks(Run(history[..n], window), history[..n], window, history[n], i0, j0, k0);
    }
  }

  /** After any run of updates with times that never decrease: the estimates are ordered by
      sample and by time, the best is a sample received at most a window ago, and every
      sample received since an estimate is no larger than it. */
  lemma FilterInvariant(history: seq<Estimate>, window: nat)
    requires history != [] && TimesNeverDecrease(history)
    ensures var f, now := Run(history, window), history[|history| - 1].time;
            && f.best.sample >= f.second.sample >= f.third.sample
            && f.best.time <= f.second.time <= f.third.time <= now
            && now - f.best.time <= window
            && (exists i :: Leads(f.best, history, i))
            && (exists j :: Leads(f.second, history, j))
            && (exists k :: Leads(f.third, history, k))
  {
    var i, j, k := RunTracks(history, window);
    Indexed(Run(history, window), history, i, j, k);
  }

  /** The best estimate changes only to a new sample at least as good, or because a whole
      window has passed since it was taken. */
  lemma BestLivesItsWindow(f: Estimates, window: nat, x: Estimate)
    requires f.best.time <= f.third.time <= x.time
    requires f.best.sample > 0 && x.time - f.best.time <= window
    ensures Updated(f, window, x).best == if x.sample >= f.best.sample then x else f.best
  {
  }

  // ----- When the report is the exact maximum of the window

  /** No sample of the window beats the best estimate, which is a sample of the window itself. */
  ghost predicate Exact(history: seq<Estimate>, window: nat)
    requires history != []
  {
    forall j :: 0 <= j < |history| && InWindow(history, window, j) ==>
        history[j].sample <= Run(history, window).best.sample
  }

  /** Sample j was taken at most a window before the last one. */
  predicate InWindow(history: seq<Estimate>, window: nat, j: nat)
    requires j < |history|
  {
    history[|history| - 1].time - history[j].time <= window
  }

  lemma RunOneMore(history: seq<Estimate>, window: nat, x: Estimate)
    ensures Run(history + [x], window) == Updated(Run(history, window), window, x)
  {
    assert (history + [x])[..|history|] == history;
  }

  /** An update that does not expire the best estimate keeps the report exact. */
  lemma ExactUntilExpiry(history: seq<Estimate>, window: nat, x: Estimate)
    requires history != [] && TimesNeverDecrease(history + [x]) && Exact(history, window)
    requires x.time - Run(history, window).best.time <= window
    ensures Exact(history + [x], window)
  {
    hide Updated, Leads;
    var h, f, n := history + [x], Run(history, window), |history| - 1;
    RunOneMore(history, window, x);
    var i, j, k := RunTracks(history, window);
    Indexed(f, history, i, j, k);
    assert h[..|history|] == history && h[n] == history[n] && h[n + 1] == x;
    BestOfUpdate(f, window, x);
    forall m | 0 <= m < |h| && InWindow(h, window, m) ensures h[m].sample <= Run(h, window).best.sample {
      if m <= n { assert InWindow(history, window, m); }
    }
  }

  lemma BestOfUpdate(f: Estimates, window: nat, x: Estimate)
    requires f.best.time <= f.third.time <= x.time && x.time - f.best.time <= window
    requires f.best.sample >= f.second.sample >= f.third.sample
    ensures Updated(f, window, x).best.sample == if x.sample >= f.best.sample then x.sample else f.best.sample
  {
  }

  /** Until a whole window has passed since the first sample, the report is the maximum of all. */
  lemma {:induction false} ExactInFirstWindow(history: seq<Estimate>, window: nat)
    requires history != [] && TimesNeverDecrease(history)
    requires history[|history| - 1].time - history[0].time <= window
    ensures forall j :: 0 <= j < |history| ==> history[j].sample <= Run(history, window).best.sample
    decreases |history|
  {
    hide Updated, Run;
    var n := |history| - 1;
    if n == 0 {
      assert history == [] + [history[0]];
      OneSample(history[0], window);
    } else {
      var h, x := history[..n], history[n];
      assert h + [x] == history;
      ExactInFirstWindow(h, window);
      FirstWindowStep(h, window, x);
    }
  }

  lemma OneSample(x: Estimate, window: nat)
    ensures Run([x], window).best == x
  {
    FirstSampleLeads(x, window);
    assert [x][..0] == [];
  }

  lemma FirstWindowStep(h: seq<Estimate>, window: nat, x: Estimate)
    requires h != [] && TimesNeverDecrease(h + [x]) && x.time - h[0].time <= window
    requires forall j :: 0 <= j < |h| ==> h[j].sample <= Run(h, window).best.sample
    ensures forall j :: 0 <= j <= |h| ==> (h + [x])[j].sample <= Run(h + [x], window).best.sample
  {
    hide Updated, Run;
    assert forall m :: 0 <= m < |h| ==> (h + [x])[m] == h[m];
    var i, j, k := RunTracks(h, window);
    Indexed(Run(h, window), h, i, j, k);
    ExactUntilExpiry(h, window, x);
    forall m | 0 <= m <= |h| ensures (h + [x])[m].sample <= Run(h + [x], window).best.sample {
      assert InWindow(h + [x], window, m);
    }
  }

  /** Estimate e is still in the window when x arrives, and better than x. */
  predicate Outlives(e: Estimate, window: nat, x: Estimate) {
    Age(x.time, e) <= window && x.sample < e.sample
  }

  /** Which of the samples j (the second estimate), k (the third) and n (the new one) an update
      that expires the best estimate puts in its place. */
  function Promoted(f: Estimates, window: nat, x: Estimate, j: nat, k: nat, n: nat): nat {
    if Outlives(f.second, window, x) then j else if Outlives(f.third, window, x) then k else n
  }

  lemma PromotedIsBest(f: Estimates, window: nat, x: Estimate)
    requires f.best.time <= f.second.time <= f.third.time <= x.time
    requires f.best.sample >= f.second.sample >= f.third.sample && x.time - f.best.time > window
    ensures Updated(f, window, x).best ==
              if Outlives(f.second, window, x) then f.second else if Outlives(f.third, window, x) then f.third else x
  {
  }

  /** An update that expires the best estimate puts in its place the second one, if that is
      still in the window and better than the new sample, else the third one, if that is, else
      the new sample. With the estimates being samples i, j and k, the new report is exact if
      and only if no sample between the expired and the promoted one is still in the window
      and larger. */
  lemma PromotionIsExactIff(history: seq<Estimate>, window: nat, x: Estimate, i: nat, j: nat, k: nat)
    requires history != [] && TimesNeverDecrease(history + [x])
    requires Tracks(Run(history, window), history, i, j, k)
    requires x.time - Run(history, window).best.time > window
    ensures var h, p := history + [x], Promoted(Run(history, window), window, x, j, k, |history|);
            && i < p < |h| && Run(h, window).best == h[p]
            && (Exact(h, window) <==>
                  forall m :: i < m < p && InWindow(h, window, m) ==> h[m].sample <= h[p].sample)
  {
    hide Updated, Leads, Run;
    var h, f := history + [x], Run(history, window);
    var p := Promoted(f, window, x, j, k, |history|);
    Indexed(f, history, i, j, k);
    assert h[i] == f.best && h[j] == f.second && h[k] == f.third && h[|history|] == x;
    PromotedIsBest(f, window, x);
    RunOneMore(history, window, x);
    forall m | 0 <= m <= i ensures !InWindow(h, window, m) {
      assert h[m].time <= h[i].time;
    }
    forall m | p <= m < |h| ensures h[m].sample <= h[p].sample {
      if m < |history| {
        LeadsFrom(if p == j then f.second else f.third, history, p, m);
      }
    }
  }

  lemma LeadsFrom(e: Estimate, history: seq<Estimate>, i: nat, m: nat)
    requires Leads(e, history, i) && i <= m < |history|
    ensures history[m].sample <= e.sample
  {
  }

  /** The condition can fail: here 9, taken four rounds ago, is lost, and 5 is reported. */
  lemma NotTheWindowMaximum(history: seq<Estimate>)
    requires history == [Estimate(10, 0), Estimate(9, 1), Estimate(5, 2), Estimate(1, 5)]
    ensures Run(history, 4).best == Estimate(5, 2)
    ensures InWindow(history, 4, 1) && history[1].sample > Run(history, 4).best.sample && !Exact(history, 4)
  {
    var h1, h2, h3 := history[..1], history[..2], history[..3];
    assert h3[..2] == h2 && h2[..1] == h1 && h1[..0] == [];
    assert Run(h1, 4).best == Estimate(10, 0);
    assert Run(h2, 4) == Estimates(Estimate(10, 0), Estimate(10, 0), Estimate(10, 0));
    assert Run(h3, 4) == Estimates(Estimate(10, 0), Estimate(5, 2), Estimate(5, 2));
  }

  // ----- The two estimates behind the best

  /** Estimates in the order of their samples and times, x no older than any of them. */
  predicate Ordered(f: Estimates, x: Estimate) {
    && f.best.sample >= f.second.sample >= f.third.sample
    && f.best.time <= f.second.time <= f.third.time <= x.time
  }

  /** An estimate that has stood in for its better one for too long, and is no smaller than it:
      it says nothing about the time since. */
  predicate Idle(e: Estimate, better: Estimate, x: Estimate, most: nat) {
    e.sample == better.sample && x.time - e.time > most
  }

  /** While the best estimate is not replaced, the new sample becomes the second one if it is no
      smaller, or if that has been a copy of the best for more than a quarter of the window; and
      it becomes the third one if it becomes the second, or is no smaller, or if that has been a
      copy of the second for more than half of the window. */
  lemma StandInsAre(f: Estimates, window: nat, x: Estimate)
    requires Ordered(f, x) && x.sample < f.best.sample && x.time - f.best.time <= window
    ensures var f' := Updated(f, window, x);
            && f'.best == f.best
            && f'.second == (if x.sample >= f.second.sample || Idle(f.second, f.best, x, window / 4)
                             then x else f.second)
            && f'.third == (if x.sample >= f.third.sample || Idle(f.second, f.best, x, window / 4)
                               || Idle(f.third, f.second, x, window / 2) then x else f.third)
  {
  }

  /** The better of two samples, the later one if they are equal. */
  function Better(e: Estimate, x: Estimate): Estimate { if x.sample >= e.sample then x else e }

  /** A new maximum, or a sample after a whole window without one, replaces all three. When only
      the best one is too old, the others move up, twice if the second is too old as well, and
      the new sample comes last. */
  lemma OthersMoveUp(f: Estimates, window: nat, x: Estimate)
    requires Ordered(f, x)
    ensures var f', a, b := Updated(f, window, x), Better(f.second, x), Better(f.third, x);
            && (f.best.sample == 0 || x.sample >= f.best.sample || x.time - f.third.time > window ==>
                  f' == Estimates(x, x, x))
            && (f.best.sample > x.sample && x.time - f.best.time > window && x.time - f.third.time <= window ==>
                  f' == if x.time - a.time <= window then Estimates(a, b, x) else Estimates(b, x, x))
  {
  }

  /** Times are unsigned: a sample from before the third estimate counts as from a whole window
      later, and replaces all three. */
  lemma TimeGoingBackResets(f: Estimates, window: nat, x: Estimate)
    requires x.time < f.third.time < 0x8000_0000_0000_0000 && window < 0x8000_0000_0000_0000
    ensures Updated(f, window, x) == Estimates(x, x, x)
  {
  }
}
