/** The candidate-selection loop of `LineXY.fit_from_points` (RANSAC):
    up to 1000 trials each draw two points with different coordinates,
    build the line through them and count the points closer to it than
    `neighbor_dist`; the first trial with the most such inliers is kept,
    and the loop stops early once a trial has more than int(0.99·n). The
    random stream is the sequence `draws` of values `rs.rand()` returns,
    each in [0, 1); a stream too short to finish gives `NeedsMoreDraws`. */
module LineFit {
  import opened Errors
  import opened RealSqrt
  import opened Vxy
  import opened LineXY

  const MaxTrials: nat := 1000

  /** Below this many points plus one the fit refuses to run. */
  const MinPoints: nat := 15

  /** `int(0.99 * n)`: the inlier count that ends the search early. */
  function Threshold(n: nat): (t: nat)
    ensures 100 * t <= 99 * n < 100 * (t + 1)
  {
    (99 * n) / 100
  }

  predicate IsDraw(r: real) {
    0.0 <= r < 1.0
  }

  predicate ValidDraws(draws: seq<real>) {
    forall k :: 0 <= k < |draws| ==> IsDraw(draws[k])
  }

  lemma DrawScaled(r: real, n: real)
    requires IsDraw(r) && 0.0 < n
    ensures 0.0 <= r * n < n
  {
    if r > 0.0 {
      PositiveProduct(r, n, r * n);
    }
    PositiveProduct(1.0 - r, n, (1.0 - r) * n);
  }

  /** `floor(rs.rand() * n)`: a draw turned into a column index. */
  function DrawIndex(r: real, n: nat): (i: nat)
    requires IsDraw(r) && 0 < n
    ensures i < n
    ensures i as real <= r * n as real < i as real + 1.0
  {
    DrawScaled(r, n as real);
    (r * n as real).Floor as nat
  }

  /** The number of true entries of a mask (`mask.sum()`). */
  function CountTrue(m: seq<bool>): (c: nat)
    ensures c <= |m|
  {
    if |m| == 0 then 0
    else (if m[0] then 1 else 0) + CountTrue(m[1..])
  }

  /** A mask counts zero exactly when no entry is true. */
  lemma {:induction false} CountZeroIff(m: seq<bool>)
    ensures CountTrue(m) == 0 <==> forall i :: 0 <= i < |m| ==> !m[i]
  {
    if |m| > 0 {
      CountZeroIff(m[1..]);
      assert forall i :: 1 <= i < |m| ==> m[i] == m[1..][i - 1];
    }
  }

  /** `dist_from(Pxy) < neighbor_dist`, point by point. */
  function InlierMask(l: Line, P: Vxy, nd: real): (m: seq<bool>)
    ensures |m| == |P|
    ensures forall i :: 0 <= i < |P| ==> (m[i] <==> DistFrom(l, P)[i] < nd)
  {
    if |P| == 0 then []
    else
      var rest := InlierMask(l, P[1..], nd);
      assert forall i :: 1 <= i < |P| ==> DistFrom(l, P)[i] == DistFrom(l, P[1..])[i - 1];
      [DistFrom(l, [P[0]])[0] < nd] + rest
  }

  /** One pass of the outer loop: the sampled indices, the line through
      their points, the inlier mask and the inlier count. */
  datatype Trial = Trial(i1: nat, i2: nat, line: Line, inliers: seq<bool>, count: nat)

  /** Builds the trial for two indices whose points differ. */
  function MakeTrial(P: Vxy, nd: real, i1: nat, i2: nat, sqrt: real -> real): (t: Trial)
    requires IsSqrt(sqrt) && i1 < |P| && i2 < |P| && P[i1] != P[i2]
    ensures t.i1 == i1 && t.i2 == i2
    ensures OnLine(t.line, P[i1]) && OnLine(t.line, P[i2])
    ensures |t.inliers| == |P|
    ensures forall i :: 0 <= i < |P| ==> (t.inliers[i] <==> DistFrom(t.line, P)[i] < nd)
    ensures t.count == CountTrue(t.inliers)
  {
    var p1 := GetItem(P, At(i1)).value;
    var p2 := GetItem(P, At(i2)).value;
    var line := FromTwoPoints(p1, p2, sqrt).value.value;
    var mask := InlierMask(line, P, nd);
    Trial(i1, i2, line, mask, CountTrue(mask))
  }

  /** What the loop knows of each trial: two indices whose points differ,
      a line through both points, and the inliers of that line. */
  predicate Sampled(P: Vxy, nd: real, t: Trial) {
    && t.i1 < |P| && t.i2 < |P| && P[t.i1] != P[t.i2]
    && OnLine(t.line, P[t.i1]) && OnLine(t.line, P[t.i2])
    && |t.inliers| == |P|
    && (forall i :: 0 <= i < |P| ==> (t.inliers[i] <==> DistFrom(t.line, P)[i] < nd))
    && t.count == CountTrue(t.inliers)
  }

  predicate AllSampled(P: Vxy, nd: real, ts: seq<Trial>) {
    forall k :: 0 <= k < |ts| ==> Sampled(P, nd, ts[k])
  }

  lemma AppendSampled(P: Vxy, nd: real, ts: seq<Trial>, t: Trial)
    requires AllSampled(P, nd, ts) && Sampled(P, nd, t)
    ensures AllSampled(P, nd, ts + [t])
  {
    assert forall k :: 0 <= k < |ts| ==> (ts + [t])[k] == ts[k];
  }

  /** The inner `while`: draws i2 again until its point differs from the
      point at i1. Gives the final i2 and the position of the next unused
      draw, or `None` when the draws run out first. */
  function Redraw(P: Vxy, i1: nat, i2: nat, draws: seq<real>, pos: nat): (r: Option<(nat, nat)>)
    requires ValidDraws(draws) && i1 < |P| && i2 < |P| && pos <= |draws|
    ensures r.Some? ==> r.value.0 < |P| && P[r.value.0] != P[i1] && pos <= r.value.1 <= |draws|
    ensures P[i2] != P[i1] ==> r == Some((i2, pos))
    decreases |draws| - pos
  {
    if P[i1] != P[i2] then Some((i2, pos))
    else if pos == |draws| then None
    else Redraw(P, i1, DrawIndex(draws[pos], |P|), draws, pos + 1)
  }

  /** One pass of the outer loop's body up to the inlier count: draws i1
      and i2 at `pos` and `pos + 1`, redraws i2 as needed, and builds the
      trial; also gives the position of the next unused draw. `None` when
      the draws run out. */
  function NextTrial(P: Vxy, nd: real, draws: seq<real>, pos: nat, sqrt: real -> real): (r: Option<(Trial, nat)>)
    requires IsSqrt(sqrt) && ValidDraws(draws) && pos <= |draws| && 0 < |P|
    ensures r.Some? ==> Sampled(P, nd, r.value.0) && pos + 2 <= r.value.1 <= |draws|
    ensures pos + 2 > |draws| ==> r.None?
  {
    if pos + 2 > |draws| then None
    else
      var i1 := DrawIndex(draws[pos], |P|);
      var i2 := DrawIndex(draws[pos + 1], |P|);
      match Redraw(P, i1, i2, draws, pos + 2)
      case None => None
      case Some((j, next)) => Some((MakeTrial(P, nd, i1, j, sqrt), next))
  }

  /** `NextTrial` on the stream `draws` as a function of the position of
      a pass's first draw; no trial once that position is past the end. */
  function Step(P: Vxy, nd: real, draws: seq<real>, sqrt: real -> real): (step: nat -> Option<(Trial, nat)>)
    requires IsSqrt(sqrt) && ValidDraws(draws) && 0 < |P|
    ensures StepSamples(P, nd, step)
    ensures forall pos: nat :: pos + 2 > |draws| ==> step(pos).None?
  {
    (pos: nat) => if pos <= |draws| then NextTrial(P, nd, draws, pos, sqrt) else None
  }

  /** Every trial `step` yields is sampled as `Sampled` says. */
  ghost predicate StepSamples(P: Vxy, nd: real, step: nat -> Option<(Trial, nat)>) {
    forall pos: nat :: step(pos).Some? ==> Sampled(P, nd, step(pos).value.0)
  }

  datatype Run = Ran(trials: seq<Trial>) | OutOfDraws

  /** What a finished run of the outer loop guarantees about the trials
      it made after the first |done| ones. */
  predicate RanFrom(P: Vxy, nd: real, done: seq<Trial>, trials: seq<Trial>) {
    && |done| <= |trials| <= MaxTrials && trials[..|done|] == done
    && AllSampled(P, nd, trials)
    && (forall k :: 0 <= k < |trials| - 1 ==> trials[k].count <= Threshold(|P|))
    && (|trials| < MaxTrials ==> |done| < |trials| && trials[|trials| - 1].count > Threshold(|P|))
  }

  /** What the outer loop needs to carry on from trial |done|: the trials
      so far are sampled and none has passed the threshold. */
  ghost predicate Resumable(P: Vxy, nd: real, step: nat -> Option<(Trial, nat)>, done: seq<Trial>) {
    && StepSamples(P, nd, step) && |done| <= MaxTrials
    && AllSampled(P, nd, done)
    && (forall k :: 0 <= k < |done| ==> done[k].count <= Threshold(|P|))
  }

  /** The outer `for` loop from trial |done| on, its passes given by `step`
      from position `pos`. */
  function RunTrials(P: Vxy, nd: real, step: nat -> Option<(Trial, nat)>, pos: nat, done: seq<Trial>): (r: Run)
    requires Resumable(P, nd, step, done)
    ensures r.Ran? ==> RanFrom(P, nd, done, r.trials)
    decreases MaxTrials - |done|, 1
  {
    if |done| == MaxTrials then Ran(done)
    else
      match step(pos)
      case None => OutOfDraws
      case Some((t, next)) => AfterTrial(P, nd, step, next, done, t)
  }

  /** The rest of one pass once trial t is made: stop when it has more
      inliers than the threshold, else go on with the next pass. */
  function AfterTrial(P: Vxy, nd: real, step: nat -> Option<(Trial, nat)>, next: nat, done: seq<Trial>, t: Trial): (r: Run)
    requires Resumable(P, nd, step, done) && |done| < MaxTrials && Sampled(P, nd, t)
    ensures r.Ran? ==> RanFrom(P, nd, done, r.trials)
    decreases MaxTrials - |done|, 0
  {
    var ts := done + [t];
    AppendSampled(P, nd, done, t);
    assert ts[..|done|] == done && ts[|done|] == t;
    if t.count > Threshold(|P|) then Ran(ts)
    else
      var r := RunTrials(P, nd, step, next, ts);
      assert r.Ran? ==> r.trials[..|done|] == ts[..|done|] by {
        if r.Ran? {
          assert r.trials[..|ts|] == ts;
        }
      }
      r
  }

  /** `best_active` and the index of the kept trial after a prefix of trials. */
  datatype Best = Best(active: nat, kept: Option<nat>)

  /** The bookkeeping of the loop: starting from `best_active = 0`, a trial
      replaces the kept candidate only with strictly more inliers. */
  function Bookkeep(trials: seq<Trial>): (b: Best)
    ensures b.kept.None? <==> forall k :: 0 <= k < |trials| ==> trials[k].count == 0
    ensures b.kept.None? ==> b.active == 0
    ensures b.kept.Some? ==> b.kept.value < |trials| && b.active == trials[b.kept.value].count
    ensures forall k :: 0 <= k < |trials| ==> trials[k].count <= b.active
    ensures b.kept.Some? ==> forall k :: 0 <= k < b.kept.value ==> trials[k].count < b.active
  {
    if |trials| == 0 then Best(0, None)
    else
      var front := trials[..|trials| - 1];
      var prev := Bookkeep(front);
      var t := trials[|trials| - 1];
      assert forall k :: 0 <= k < |front| ==> front[k] == trials[k];
      if t.count > prev.active then Best(t.count, Some(|trials| - 1)) else prev
  }

  /** What the selection hands to the scipy refinement: the kept line
      (`A_active`, `B_active`, `C_active`) and its inlier mask
      (`active_mask`), with the trials that led to them. */
  datatype Outcome =
    | Fitted(line: Line, inliers: seq<bool>, trials: seq<Trial>, kept: nat)
    | Failed(error: Error)
    | NeedsMoreDraws

  /** `fit_from_points` up to the refinement, as the source writes it. */
  function FitFromPoints(P: Vxy, nd: real, draws: seq<real>, sqrt: real -> real): (r: Outcome)
    requires IsSqrt(sqrt) && ValidDraws(draws)
    ensures (r.Failed? && r.error.ValueError?) <==> |P| <= MinPoints
    ensures r.Failed? ==> r.error.ValueError? || r.error.UnboundLocalError?
    ensures r.Fitted? ==> 1 <= |r.trials| <= MaxTrials
    ensures r.Fitted? ==> forall k :: 0 <= k < |r.trials| ==> Sampled(P, nd, r.trials[k])
    ensures r.Fitted? ==> forall k :: 0 <= k < |r.trials| - 1 ==> r.trials[k].count <= Threshold(|P|)
    ensures r.Fitted? && |r.trials| < MaxTrials ==> r.trials[|r.trials| - 1].count > Threshold(|P|)
    ensures r.Fitted? ==> r.kept < |r.trials| && r.line == r.trials[r.kept].line
    ensures r.Fitted? ==> r.inliers == r.trials[r.kept].inliers && 0 < r.trials[r.kept].count
    ensures r.Fitted? ==> forall k :: 0 <= k < |r.trials| ==> r.trials[k].count <= r.trials[r.kept].count
    ensures r.Fitted? ==> forall k :: 0 <= k < r.kept ==> r.trials[k].count < r.trials[r.kept].count
  {
    var n := |P|;
    if n <= MinPoints then Failed(ValueError("To fit line from points, must have > 15 points"))
    else
      match RunTrials(P, nd, Step(P, nd, draws, sqrt), 0, [])
      case OutOfDraws => NeedsMoreDraws
      case Ran(trials) =>
        assert RanFrom(P, nd, [], trials);
        var best := Bookkeep(trials);
        match best.kept
        case None => Failed(UnboundLocalError)
        case Some(k) => Fitted(trials[k].line, trials[k].inliers, trials, k)
  }

  // ------------------------------------------------------------------
  // When no candidate is kept

  /** A trial's sampled points lie on its line, at distance 0: they are
      inliers exactly when the neighbour distance is positive, and with a
      distance of zero or less no point is. */
  lemma SampledCount(P: Vxy, nd: real, t: Trial)
    requires Sampled(P, nd, t)
    ensures 0.0 < nd ==> 0 < t.count
    ensures nd <= 0.0 ==> t.count == 0
  {
    CountZeroIff(t.inliers);
    var ds := DistFrom(t.line, P);
    if 0.0 < nd {
      assert ds[t.i1] == 0.0;
      assert t.inliers[t.i1];
    } else {
      assert forall i :: 0 <= i < |P| ==> !t.inliers[i] by {
        forall i | 0 <= i < |P|
          ensures !t.inliers[i]
        {
          assert 0.0 <= ds[i];
        }
      }
    }
  }

  /** A candidate is kept exactly when the neighbour distance is positive;
      otherwise `active_mask` is never bound and the source raises
      UnboundLocalError. */
  lemma KeptIffPositiveDistance(P: Vxy, nd: real, draws: seq<real>, sqrt: real -> real)
    requires IsSqrt(sqrt) && ValidDraws(draws)
    requires |P| > MinPoints && FitFromPoints(P, nd, draws, sqrt) != NeedsMoreDraws
    ensures FitFromPoints(P, nd, draws, sqrt).Fitted? <==> 0.0 < nd
    ensures FitFromPoints(P, nd, draws, sqrt).Failed? <==> nd <= 0.0
  {
    var r := RunTrials(P, nd, Step(P, nd, draws, sqrt), 0, []);
    assert r.Ran?;
    var ts := r.trials;
    assert RanFrom(P, nd, [], ts);
    assert 0 < |ts|;
    if 0.0 < nd {
      SampledCount(P, nd, ts[0]);
    } else {
      forall k | 0 <= k < |ts|
        ensures ts[k].count == 0
      {
        SampledCount(P, nd, ts[k]);
      }
    }
  }

  // ------------------------------------------------------------------
  // Points that all coincide

  predicate AllCoincide(P: Vxy) {
    forall i :: 0 <= i < |P| ==> P[i] == P[0]
  }

  lemma {:induction false} RedrawNeverEnds(P: Vxy, i1: nat, i2: nat, draws: seq<real>, pos: nat)
    requires ValidDraws(draws) && i1 < |P| && i2 < |P| && pos <= |draws|
    requires AllCoincide(P)
    ensures Redraw(P, i1, i2, draws, pos).None?
    decreases |draws| - pos
  {
    if pos < |draws| {
      RedrawNeverEnds(P, i1, DrawIndex(draws[pos], |P|), draws, pos + 1);
    }
  }

  /** When every point has the same coordinates the inner loop can never
      find a second point, so no stream of draws, however long, lets the
      source's fit finish. */
  lemma AsWrittenNeverFinishes(P: Vxy, nd: real, draws: seq<real>, sqrt: real -> real)
    requires IsSqrt(sqrt) && ValidDraws(draws)
    requires |P| > MinPoints && AllCoincide(P)
    ensures FitFromPoints(P, nd, draws, sqrt) == NeedsMoreDraws
  {
    if 2 <= |draws| {
      var i1 := DrawIndex(draws[0], |P|);
      var i2 := DrawIndex(draws[1], |P|);
      RedrawNeverEnds(P, i1, i2, draws, 2);
    }
  }

  /** The fit with the coincident-points case rejected up front, as a
      ValueError like the too-few-points case; otherwise it is the
      source's fit. */
  function FitFromPointsGuarded(P: Vxy, nd: real, draws: seq<real>, sqrt: real -> real): (r: Outcome)
    requires IsSqrt(sqrt) && ValidDraws(draws)
    ensures |P| > MinPoints && AllCoincide(P) ==> r.Failed? && r.error.ValueError?
    ensures !(|P| > MinPoints && AllCoincide(P)) ==> r == FitFromPoints(P, nd, draws, sqrt)
  {
    if |P| > MinPoints && AllCoincide(P) then Failed(ValueError("all points coincide"))
    else FitFromPoints(P, nd, draws, sqrt)
  }

  /** Draws that always pick columns 0 and j. */
  function FixedDraws(j: nat, n: nat): (ds: seq<real>)
    requires j < n
    ensures |ds| == 2 * MaxTrials && ValidDraws(ds)
  {
    seq(2 * MaxTrials, k requires 0 <= k < 2 * MaxTrials =>
      if k % 2 == 0 then 0.0 else j as real / n as real)
  }

  lemma FixedDrawIndex(j: nat, n: nat)
    requires j < n
    ensures DrawIndex(0.0, n) == 0
    ensures IsDraw(j as real / n as real) && DrawIndex(j as real / n as real, n) == j
  {
    var r := j as real / n as real;
    assert r * n as real == j as real;
    DrawScaled(r, n as real);
  }

  /** On the fixed draws every pass at an even position samples columns 0
      and j at once. */
  lemma FixedNextTrial(P: Vxy, nd: real, j: nat, pos: nat, sqrt: real -> real)
    requires IsSqrt(sqrt) && j < |P| && P[j] != P[0]
    requires pos < 2 * MaxTrials && pos % 2 == 0
    ensures Step(P, nd, FixedDraws(j, |P|), sqrt)(pos) == Some((MakeTrial(P, nd, 0, j, sqrt), pos + 2))
  {
    var ds := FixedDraws(j, |P|);
    FixedDrawIndex(j, |P|);
    assert (pos + 1) % 2 == 1;
    assert ds[pos] == 0.0 && ds[pos + 1] == j as real / |P| as real;
    assert NextTrial(P, nd, ds, pos, sqrt) == Some((MakeTrial(P, nd, 0, j, sqrt), pos + 2));
  }

  /** A pass that yields trial t: above the threshold the run stops with
      t appended, otherwise it goes on from `next` with t appended. */
  lemma Pass(P: Vxy, nd: real, step: nat -> Option<(Trial, nat)>, pos: nat, next: nat, done: seq<Trial>, t: Trial)
    requires Resumable(P, nd, step, done) && |done| < MaxTrials
    requires step(pos) == Some((t, next))
    ensures t.count > Threshold(|P|) ==> RunTrials(P, nd, step, pos, done) == Ran(done + [t])
    ensures t.count <= Threshold(|P|) ==>
      && Resumable(P, nd, step, done + [t])
      && RunTrials(P, nd, step, pos, done) == RunTrials(P, nd, step, next, done + [t])
  {
    assert Sampled(P, nd, t);
    AppendSampled(P, nd, done, t);
  }

  /** The next `passes` passes from `pos` each read two draws and yield t. */
  predicate Steady(step: nat -> Option<(Trial, nat)>, t: Trial, pos: nat, passes: nat)
    decreases passes
  {
    passes > 0 ==> step(pos) == Some((t, pos + 2)) && Steady(step, t, pos + 2, passes - 1)
  }

  /** When every remaining pass yields the same trial, the loop finishes,
      whether or not that trial beats the threshold. */
  lemma {:induction false} SteadyRunFinishes(P: Vxy, nd: real, step: nat -> Option<(Trial, nat)>, t: Trial, pos: nat, done: seq<Trial>)
    requires Resumable(P, nd, step, done) && Steady(step, t, pos, MaxTrials - |done|)
    ensures RunTrials(P, nd, step, pos, done).Ran?
    decreases MaxTrials - |done|
  {
    if |done| < MaxTrials {
      Pass(P, nd, step, pos, pos + 2, done, t);
      if t.count <= Threshold(|P|) {
        SteadyRunFinishes(P, nd, step, t, pos + 2, done + [t]);
      }
    }
  }

  /** A stream whose every pass at an even offset from `pos`, within
      `passes` passes, reads two draws and yields t is steady. */
  lemma {:induction false} SteadyOfEvery(step: nat -> Option<(Trial, nat)>, t: Trial, pos: nat, passes: nat)
    requires forall p: nat :: pos <= p < pos + 2 * passes && (p - pos) % 2 == 0 ==> step(p) == Some((t, p + 2))
    ensures Steady(step, t, pos, passes)
    decreases passes
  {
    if passes > 0 {
      assert step(pos) == Some((t, pos + 2));
      forall p: nat | pos + 2 <= p < pos + 2 + 2 * (passes - 1) && (p - (pos + 2)) % 2 == 0
        ensures step(p) == Some((t, p + 2))
      {
        assert (p - pos) % 2 == 0;
      }
      SteadyOfEvery(step, t, pos + 2, passes - 1);
    }
  }

  /** On the fixed draws all 1000 passes yield the trial on columns 0 and j. */
  lemma FixedDrawsSteady(P: Vxy, nd: real, j: nat, sqrt: real -> real)
    requires IsSqrt(sqrt) && j < |P| && P[j] != P[0]
    ensures Steady(Step(P, nd, FixedDraws(j, |P|), sqrt), MakeTrial(P, nd, 0, j, sqrt), 0, MaxTrials)
  {
    var step := Step(P, nd, FixedDraws(j, |P|), sqrt);
    var t := MakeTrial(P, nd, 0, j, sqrt);
    forall p: nat | 0 <= p < 0 + 2 * MaxTrials && (p - 0) % 2 == 0
      ensures step(p) == Some((t, p + 2))
    {
      FixedNextTrial(P, nd, j, p, sqrt);
    }
    SteadyOfEvery(step, t, 0, MaxTrials);
  }

  /** The fit needs no more draws once the loop has finished on them. */
  lemma FitFinishesWithRun(P: Vxy, nd: real, draws: seq<real>, sqrt: real -> real)
    requires IsSqrt(sqrt) && ValidDraws(draws) && 0 < |P|
    requires RunTrials(P, nd, Step(P, nd, draws, sqrt), 0, []).Ran?
    ensures FitFromPoints(P, nd, draws, sqrt) != NeedsMoreDraws
  {
  }

  /** The loop finishes on the draws that always pick columns 0 and j. */
  lemma FixedDrawsRun(P: Vxy, nd: real, j: nat, sqrt: real -> real)
    requires IsSqrt(sqrt) && j < |P| && P[j] != P[0]
    ensures RunTrials(P, nd, Step(P, nd, FixedDraws(j, |P|), sqrt), 0, []).Ran?
  {
    FixedDrawsSteady(P, nd, j, sqrt);
    SteadyRunFinishes(P, nd, Step(P, nd, FixedDraws(j, |P|), sqrt), MakeTrial(P, nd, 0, j, sqrt), 0, []);
  }

  lemma FixedDrawsFit(P: Vxy, nd: real, j: nat, sqrt: real -> real)
    requires IsSqrt(sqrt) && j < |P| && P[j] != P[0]
    ensures FitFromPoints(P, nd, FixedDraws(j, |P|), sqrt) != NeedsMoreDraws
  {
    FixedDrawsRun(P, nd, j, sqrt);
    FitFinishesWithRun(P, nd, FixedDraws(j, |P|), sqrt);
  }

  /** With the guard, input that is not rejected can always finish: some
      stream of draws leads to a kept line or a reported error. */
  lemma GuardedCanFinish(P: Vxy, nd: real, sqrt: real -> real)
    requires IsSqrt(sqrt)
    ensures exists draws :: ValidDraws(draws) && FitFromPointsGuarded(P, nd, draws, sqrt) != NeedsMoreDraws
  {
    if |P| > MinPoints && !AllCoincide(P) {
      var j :| 0 <= j < |P| && P[j] != P[0];
      var ds := FixedDraws(j, |P|);
      FixedDrawsFit(P, nd, j, sqrt);
      assert FitFromPointsGuarded(P, nd, ds, sqrt) == FitFromPoints(P, nd, ds, sqrt);
    } else {
      var ds: seq<real> := [];
      assert FitFromPointsGuarded(P, nd, ds, sqrt) != NeedsMoreDraws;
    }
  }
}
