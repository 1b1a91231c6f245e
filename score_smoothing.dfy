/**
 * The wake decision of the engine (`smoothAndMaybeFire`): the classifier's
 * scores are averaged over a sliding window of the last `smoothWindow`
 * scores, and the wake callback fires when the average reaches the
 * threshold and more than 600 ms have passed since the previous firing.
 * Firing clears the window. Clock readings are milliseconds.
 */
module ScoreSmoothing {

  /** `cooldownMs`. */
  const COOLDOWN_MS: int := 600

  function Sum(xs: seq<real>): real {
    if xs == [] then 0.0 else Sum(xs[..|xs| - 1]) + xs[|xs| - 1]
  }

  /** `average()` of a non-empty collection. */
  function Mean(xs: seq<real>): real
    requires |xs| > 0
  {
    Sum(xs) / (|xs| as real)
  }

  /** The scores window and the time of the last firing (`lastScores`, `lastFireAt`). */
  datatype Smoothing = Smoothing(scores: seq<real>, lastFireAt: int)

  /** The state after one score, and whether the wake callback fired. */
  datatype Step = Step(state: Smoothing, fired: bool)

  /** The window after adding `score`: the oldest score leaves when the window is full. */
  function Admit(scores: seq<real>, window: nat, score: real): (r: seq<real>)
    requires 1 <= window
    ensures |scores| <= window ==> 1 <= |r| <= window
    ensures |r| >= 1 && r[|r| - 1] == score
  {
    (if |scores| == window then scores[1..] else scores) + [score]
  }

  /** `smoothAndMaybeFire(score)` at clock reading `now`. */
  function Smooth(s: Smoothing, window: nat, threshold: real, score: real, now: int): (r: Step)
    requires 1 <= window
    ensures |s.scores| <= window ==> |r.state.scores| <= window
    ensures r.fired ==> r.state == Smoothing([], now) && now - s.lastFireAt > COOLDOWN_MS
    ensures !r.fired ==> r.state == Smoothing(Admit(s.scores, window, score), s.lastFireAt)
  {
    var scores := Admit(s.scores, window, score);
    var avg := Mean(scores);
    if avg >= threshold && now - s.lastFireAt > COOLDOWN_MS then
      Step(Smoothing([], now), true)
    else
      Step(Smoothing(scores, s.lastFireAt), false)
  }

  // ---------------------------------------------------------------------
  // One step

  lemma {:induction false} SumBelow(xs: seq<real>, bound: real)
    requires forall i | 0 <= i < |xs| :: xs[i] < bound
    ensures |xs| > 0 ==> Sum(xs) < (|xs| as real) * bound
  {
    if |xs| > 1 {
      SumBelow(xs[..|xs| - 1], bound);
    }
  }

  lemma {:induction false} SumWithin(xs: seq<real>, lo: real, hi: real)
    requires forall i | 0 <= i < |xs| :: lo <= xs[i] <= hi
    ensures (|xs| as real) * lo <= Sum(xs) <= (|xs| as real) * hi
  {
    if xs != [] {
      SumWithin(xs[..|xs| - 1], lo, hi);
    }
  }

  /** The mean of scores that all lie in `[lo, hi]` lies there too. */
  lemma MeanWithin(xs: seq<real>, lo: real, hi: real)
    requires |xs| > 0
    requires forall i | 0 <= i < |xs| :: lo <= xs[i] <= hi
    ensures lo <= Mean(xs) <= hi
  {
    SumWithin(xs, lo, hi);
  }

  /** No firing unless some score in the window, the new one included, reached the threshold. */
  lemma FiringNeedsHighScore(s: Smoothing, window: nat, threshold: real, score: real, now: int)
    requires 1 <= window
    requires Smooth(s, window, threshold, score, now).fired
    ensures exists i | 0 <= i < |Admit(s.scores, window, score)| :: Admit(s.scores, window, score)[i] >= threshold
  {
    var xs := Admit(s.scores, window, score);
    if forall i | 0 <= i < |xs| :: xs[i] < threshold {
      SumBelow(xs, threshold);
      DivBelow(Sum(xs), |xs| as real, threshold);
    }
  }

  lemma DivBelow(a: real, n: real, t: real)
    requires n > 0.0 && a < n * t
    ensures a / n < t
  {
  }

  /**
   * There is no warm-up: from the initial state (`lastFireAt` = 0, empty
   * window) the very first score fires on its own when it reaches the
   * threshold, at any clock reading past 600 ms.
   */
  lemma FirstScoreFires(window: nat, threshold: real, score: real, now: int)
    requires 1 <= window && now > COOLDOWN_MS
    ensures Smooth(Smoothing([], 0), window, threshold, score, now).fired <==> score >= threshold
  {
    assert Admit([], window, score) == [score];
    assert [score][..0] == [];
    assert Sum([score]) == score;
    assert Mean([score]) == score / 1.0 == score;
  }

  /** With a window of 3 and threshold 0.015, the first 0.02 fires; a second 0.02 100 ms later does not. */
  lemma CooldownExample(now: int)
    requires now > COOLDOWN_MS
    ensures var first := Smooth(Smoothing([], 0), 3, 0.015, 0.02, now);
            first.fired && !Smooth(first.state, 3, 0.015, 0.02, now + 100).fired
  {
    FirstScoreFires(3, 0.015, 0.02, now);
  }

  // ---------------------------------------------------------------------
  // A sequence of scores

  /** A classifier score and the clock reading it was smoothed at. */
  datatype Reading = Reading(score: real, now: int)

  /** The scores of a sequence of readings. */
  function Scores(rs: seq<Reading>): (r: seq<real>)
    ensures |r| == |rs|
    ensures forall i | 0 <= i < |rs| :: r[i] == rs[i].score
  {
    if rs == [] then [] else Scores(rs[..|rs| - 1]) + [rs[|rs| - 1].score]
  }

  /** The final state after smoothing `rs` in order, and the clock readings at which the callback fired. */
  function Run(s: Smoothing, window: nat, threshold: real, rs: seq<Reading>): (Smoothing, seq<int>)
    requires 1 <= window
  {
    if rs == [] then (s, [])
    else
      var (mid, fires) := Run(s, window, threshold, rs[..|rs| - 1]);
      var last := rs[|rs| - 1];
      var step := Smooth(mid, window, threshold, last.score, last.now);
      (step.state, if step.fired then fires + [last.now] else fires)
  }

  /** Fire times are more than the cooldown apart (whatever the clock does) and the state remembers the last one. */
  predicate Spaced(start: int, fires: seq<int>) {
    && (|fires| > 0 ==> fires[0] - start > COOLDOWN_MS)
    && (forall i | 0 <= i < |fires| - 1 :: fires[i + 1] - fires[i] > COOLDOWN_MS)
  }

  lemma {:induction false} RunSpaced(s: Smoothing, window: nat, threshold: real, rs: seq<Reading>)
    requires 1 <= window
    ensures var (final, fires) := Run(s, window, threshold, rs);
            Spaced(s.lastFireAt, fires) &&
            final.lastFireAt == (if fires == [] then s.lastFireAt else fires[|fires| - 1])
  {
    if rs != [] {
      var (mid, fires) := Run(s, window, threshold, rs[..|rs| - 1]);
      var last := rs[|rs| - 1];
      RunSpaced(s, window, threshold, rs[..|rs| - 1]);
      if Smooth(mid, window, threshold, last.score, last.now).fired {
        SpacedAppend(s.lastFireAt, fires, last.now);
      }
    }
  }

  /** A fire more than the cooldown after the last one keeps the fire times spaced. */
  lemma SpacedAppend(start: int, fires: seq<int>, now: int)
    requires Spaced(start, fires)
    requires now - (if fires == [] then start else fires[|fires| - 1]) > COOLDOWN_MS
    ensures Spaced(start, fires + [now])
  {
    var fs := fires + [now];
    forall i | 0 <= i < |fs| - 1
      ensures fs[i + 1] - fs[i] > COOLDOWN_MS
    {
      if i + 1 < |fires| {
        assert fs[i + 1] == fires[i + 1] && fs[i] == fires[i];
      }
    }
  }

  /** Fires spaced more than 600 ms apart within `[t0, t1]` number at most `(t1 - t0) / 600 + 1`. */
  lemma {:induction false} SpacedCount(start: int, fires: seq<int>, t0: int, t1: int)
    requires t0 <= t1
    requires Spaced(start, fires)
    requires forall i | 0 <= i < |fires| :: t0 <= fires[i] <= t1
    ensures |fires| <= (t1 - t0) / COOLDOWN_MS + 1
  {
    if |fires| > 1 {
      SpacedSpan(start, fires);
      assert fires[|fires| - 1] - fires[0] <= t1 - t0;
      DivLower(|fires| - 1, t1 - t0);
    }
  }

  /** `m <= d / 600` as soon as `600 * m <= d`. */
  lemma DivLower(m: nat, d: int)
    requires COOLDOWN_MS * m <= d
    ensures m <= d / COOLDOWN_MS
  {
  }

  lemma {:induction false} SpacedSpan(start: int, fires: seq<int>)
    requires Spaced(start, fires) && |fires| >= 1
    ensures fires[|fires| - 1] - fires[0] >= (COOLDOWN_MS + 1) * (|fires| - 1)
  {
    if |fires| > 1 {
      SpacedSpan(start, fires[..|fires| - 1]);
    }
  }

  /**
   * The debounce bound: however the scores behave, a run whose clock
   * readings lie in `[t0, t1]` fires at most `(t1 - t0) / 600 + 1` times.
   */
  lemma DebounceBound(s: Smoothing, window: nat, threshold: real, rs: seq<Reading>, t0: int, t1: int)
    requires 1 <= window && t0 <= t1
    requires forall i | 0 <= i < |rs| :: t0 <= rs[i].now <= t1
    ensures |Run(s, window, threshold, rs).1| <= (t1 - t0) / COOLDOWN_MS + 1
  {
    RunSpaced(s, window, threshold, rs);
    FiresWithin(s, window, threshold, rs, t0, t1);
    SpacedCount(s.lastFireAt, Run(s, window, threshold, rs).1, t0, t1);
  }

  /** Every firing happens at the clock reading of one of the readings. */
  lemma {:induction false} FiresWithin(s: Smoothing, window: nat, threshold: real, rs: seq<Reading>, t0: int, t1: int)
    requires 1 <= window
    requires forall i | 0 <= i < |rs| :: t0 <= rs[i].now <= t1
    ensures forall i | 0 <= i < |Run(s, window, threshold, rs).1| :: t0 <= Run(s, window, threshold, rs).1[i] <= t1
  {
    if rs != [] {
      FiresWithin(s, window, threshold, rs[..|rs| - 1], t0, t1);
    }
  }

  /** The last `window` elements of `xs`, or all of them if there are fewer. */
  function LastUpTo(xs: seq<real>, window: nat): (r: seq<real>)
    ensures |r| <= window && |r| <= |xs|
  {
    if |xs| <= window then xs else xs[|xs| - window..]
  }

  /** Admitting a score to the last `window` scores gives the last `window` scores of the longer list. */
  lemma AdmitLastUpTo(xs: seq<real>, window: nat, x: real)
    requires 1 <= window
    ensures Admit(LastUpTo(xs, window), window, x) == LastUpTo(xs + [x], window)
  {
    var ys := xs + [x];
    if |xs| < window {
    } else if |xs| == window {
      assert ys[|ys| - window..] == xs[1..] + [x];
    } else {
      assert xs[|xs| - window..][1..] + [x] == ys[|ys| - window..];
    }
  }

  /**
   * Between firings the window is a moving window: with no firing, it holds
   * the last `smoothWindow` scores (or all of them, if fewer).
   */
  lemma {:induction false} RunWindow(s: Smoothing, window: nat, threshold: real, rs: seq<Reading>)
    requires 1 <= window && |s.scores| <= window
    requires Run(s, window, threshold, rs).1 == []
    ensures Run(s, window, threshold, rs).0.scores == LastUpTo(s.scores + Scores(rs), window)
  {
    if rs == [] {
      assert s.scores + Scores(rs) == s.scores;
    } else {
      var init := rs[..|rs| - 1];
      var last := rs[|rs| - 1];
      RunWindow(s, window, threshold, init);
      AdmitLastUpTo(s.scores + Scores(init), window, last.score);
      assert s.scores + Scores(rs) == s.scores + Scores(init) + [last.score];
    }
  }
}
