/** The per-team column expressions: shift, expanding count, fillna, day difference, the playoff flag and
    the exponentially weighted mean, each over one column of one team's rows. */
module Series {
  import opened Values
  import opened Calendar

  /** Games in a regular season; a team past this count is in the playoffs. */
  const RegularSeasonGames := 82

  /** `s.shift(k)`: cell `i` takes cell `i - k`, missing where that index does not exist. */
  function Shift(xs: seq<Value>, k: int): (ys: seq<Value>)
    ensures |ys| == |xs|
  {
    seq(|xs|, i requires 0 <= i < |xs| => if 0 <= i - k < |xs| then xs[i - k] else Null)
  }

  /** How many cells are present (not missing). */
  function CountPresent(xs: seq<Value>): nat
    decreases |xs|
  {
    if xs == [] then 0 else CountPresent(xs[..|xs| - 1]) + (if xs[|xs| - 1] != Null then 1 else 0)
  }

  /** `s.expanding().count()`: present cells up to and including each row, 0 while there are none (pandas
      counts the 0/1 series `s.notna()`, which is never missing). */
  function ExpandingCount(xs: seq<Value>): (ys: seq<Value>)
    ensures |ys| == |xs|
  {
    seq(|xs|, i requires 0 <= i < |xs| => Num(CountPresent(xs[..i + 1]) as real))
  }

  /** `s.fillna(v)`. */
  function FillNa(xs: seq<Value>, v: Value): (ys: seq<Value>)
    ensures |ys| == |xs|
  {
    seq(|xs|, i requires 0 <= i < |xs| => if xs[i] == Null then v else xs[i])
  }

  /** `game_count`: `gameId.expanding().count().shift(shift).fillna(0)`. */
  function GameCount(gameIds: seq<Value>, shift: int): (ys: seq<Value>)
    ensures |ys| == |gameIds|
  {
    FillNa(Shift(ExpandingCount(gameIds), shift), Num(0.0))
  }

  /** `time_between_games`: `date.diff().dt.days`, missing on the first row and wherever a date is missing. */
  function DaysBetween(dates: seq<Value>): (ys: seq<Value>)
    ensures |ys| == |dates|
  {
    seq(|dates|, i requires 0 <= i < |dates| =>
      if i == 0 then Null
      else match (dates[i - 1], dates[i])
        case (Day(a), Day(b)) => if IsValidDate(a) && IsValidDate(b) then Num((Ordinal(b) - Ordinal(a)) as real) else Null
        case _ => Null)
  }

  /** `playoff`: `(game_count > 82).astype(int)`; a comparison with a missing cell is false. */
  function Playoff(gameCounts: seq<Value>): (ys: seq<Value>)
    ensures |ys| == |gameCounts|
  {
    seq(|gameCounts|, i requires 0 <= i < |gameCounts| =>
      if gameCounts[i].Num? && gameCounts[i].n > RegularSeasonGames as real then Num(1.0) else Num(0.0))
  }

  // ---------------------------------------------------------------------------------------------
  // The exponentially weighted mean, `s.ewm(span=span, min_periods=1).mean()` with pandas' defaults
  // adjust=True and ignore_na=False, in exact arithmetic.

  /** The running state of pandas' one-pass recurrence: the current weighted mean (missing until the first
      present cell) and the total weight of the earlier observations. */
  datatype EwmState = EwmState(weighted: Value, oldWt: real)

  /** The smoothing factor of a span: 2 / (span + 1). */
  function Alpha(span: int): (a: real)
    requires span >= 1
    ensures 0.0 < a <= 1.0
  {
    2.0 / (span as real + 1.0)
  }

  predicate IsNumeric(v: Value) {
    v == Null || v.Num?
  }

  /** One step of the recurrence: earlier weights decay by (1 - alpha); a present cell enters with weight 1. */
  function EwmStep(st: EwmState, x: Value, alpha: real): (next: EwmState)
    requires 0.0 < alpha <= 1.0 && st.oldWt >= 0.0
    ensures next.oldWt >= 0.0
  {
    if st.weighted.Num? then
      var ow := st.oldWt * (1.0 - alpha);
      if x.Num? then EwmState(Num((ow * st.weighted.n + x.n) / (ow + 1.0)), ow + 1.0)
      else EwmState(st.weighted, ow)
    else if x.Num? then EwmState(x, st.oldWt)
    else st
  }

  /** The recurrence run over `xs` in one pass: the final state and the mean after each cell. */
  function EwmScan(xs: seq<Value>, alpha: real): (res: (EwmState, seq<Value>))
    requires 0.0 < alpha <= 1.0
    ensures res.0.oldWt >= 0.0
    ensures |res.1| == |xs|
    decreases |xs|
  {
    if xs == [] then (EwmState(Null, 1.0), [])
    else
      var (st, means) := EwmScan(xs[..|xs| - 1], alpha);
      var next := EwmStep(st, xs[|xs| - 1], alpha);
      (next, means + [next.weighted])
  }

  /** `col.ewm(span=span, min_periods=1).mean().shift(shift)`: a running_avg column before it is attached. */
  function RunningAverage(col: seq<Value>, span: int, shift: int): (r: Result<seq<Value>>)
    ensures r.Ok? <==> span >= 1 && forall i :: 0 <= i < |col| ==> IsNumeric(col[i])
    ensures r.Ok? ==> |r.value| == |col|
  {
    if span < 1 then Err(InvalidSpan)
    else if exists i :: 0 <= i < |col| && !IsNumeric(col[i]) then Err(NonNumeric)
    else Ok(Shift(EwmScan(col, Alpha(span)).1, shift))
  }

  // ---------------------------------------------------------------------------------------------
  // Properties

  lemma {:induction false} CountAllPresent(xs: seq<Value>)
    requires forall i :: 0 <= i < |xs| ==> xs[i] != Null
    ensures CountPresent(xs) == |xs|
    decreases |xs|
  {
    if xs != [] {
      CountAllPresent(xs[..|xs| - 1]);
    }
  }

  /** game_count at row `i` is the number of present gameIds up to row `i - shift`, and 0 before that. */
  lemma GameCountAt(gameIds: seq<Value>, shift: int, i: int)
    requires 0 <= i < |gameIds|
    ensures GameCount(gameIds, shift)[i]
         == Num(if 0 <= i - shift < |gameIds| then CountPresent(gameIds[..i - shift + 1]) as real else 0.0)
  {
  }

  /** With every gameId present and a lag of `shift >= 0`, game_count at row `i` is max(0, i + 1 - shift);
      for shift = 1 that is the number of earlier rows. */
  lemma GameCountOfPresentIds(gameIds: seq<Value>, shift: int, i: int)
    requires forall j :: 0 <= j < |gameIds| ==> gameIds[j] != Null
    requires shift >= 0 && 0 <= i < |gameIds|
    ensures GameCount(gameIds, shift)[i] == Num(if i + 1 - shift > 0 then (i + 1 - shift) as real else 0.0)
  {
    GameCountAt(gameIds, shift, i);
    if 0 <= i - shift {
      CountAllPresent(gameIds[..i - shift + 1]);
    }
  }

  /** playoff is 1 exactly when game_count exceeds 82, and 0 otherwise. */
  lemma PlayoffIff(gameIds: seq<Value>, shift: int, i: int)
    requires 0 <= i < |gameIds|
    ensures var gc := GameCount(gameIds, shift)[i];
      && gc.Num?
      && (Playoff(GameCount(gameIds, shift))[i] == Num(1.0) <==> gc.n > 82.0)
      && (Playoff(GameCount(gameIds, shift))[i] == Num(0.0) <==> gc.n <= 82.0)
  {
    GameCountAt(gameIds, shift, i);
  }

  /** With every gameId present and shift >= 0, a row is flagged as a playoff game exactly when
      i + 1 - shift > 82. */
  lemma PlayoffOfPresentIds(gameIds: seq<Value>, shift: int, i: int)
    requires forall j :: 0 <= j < |gameIds| ==> gameIds[j] != Null
    requires shift >= 0 && 0 <= i < |gameIds|
    ensures Playoff(GameCount(gameIds, shift))[i] == (if i + 1 - shift > RegularSeasonGames then Num(1.0) else Num(0.0))
  {
    GameCountOfPresentIds(gameIds, shift, i);
  }

  /** time_between_games is missing on a team's first row; on every other row it is the day difference from
      the row just before it in input order, positive exactly when that earlier row's date is earlier. */
  lemma DaysBetweenAt(dates: seq<Value>, i: int)
    requires 0 <= i < |dates|
    ensures i == 0 ==> DaysBetween(dates)[i] == Null
    ensures i > 0 && dates[i - 1].Day? && dates[i].Day? && IsValidDate(dates[i - 1].d) && IsValidDate(dates[i].d) ==>
      && DaysBetween(dates)[i] == Num((Ordinal(dates[i].d) - Ordinal(dates[i - 1].d)) as real)
      && (DaysBetween(dates)[i].n > 0.0 <==> Before(dates[i - 1].d, dates[i].d))
      && (DaysBetween(dates)[i].n == 0.0 <==> dates[i - 1].d == dates[i].d)
  {
    if i > 0 && dates[i - 1].Day? && dates[i].Day? && IsValidDate(dates[i - 1].d) && IsValidDate(dates[i].d) {
      OrdinalOrder(dates[i - 1].d, dates[i].d);
    }
  }

  /** The one-pass mean after cell `j` is the mean of the prefix ending at `j`: nothing later enters it. */
  lemma {:induction false} EwmPrefix(xs: seq<Value>, alpha: real, j: int)
    requires 0.0 < alpha <= 1.0
    requires 0 <= j < |xs|
    ensures EwmScan(xs, alpha).1[j] == EwmScan(xs[..j + 1], alpha).0.weighted
    decreases |xs|
  {
    if j < |xs| - 1 {
      EwmPrefix(xs[..|xs| - 1], alpha, j);
      assert xs[..|xs| - 1][..j + 1] == xs[..j + 1];
    } else {
      assert xs[..j + 1] == xs;
    }
  }

  /** The running average attached to row `i` is missing for i < shift, and otherwise the weighted mean of
      the cells at rows 0 .. i - shift. */
  lemma RunningAverageAt(col: seq<Value>, span: int, shift: int, i: int)
    requires RunningAverage(col, span, shift).Ok?
    requires 0 <= i < |col|
    ensures RunningAverage(col, span, shift).value[i]
         == if 0 <= i - shift < |col| then EwmScan(col[..i - shift + 1], Alpha(span)).0.weighted else Null
  {
    if 0 <= i - shift < |col| {
      EwmPrefix(col, Alpha(span), i - shift);
    }
  }

  /**
   * No look-ahead: with shift >= 1 the running average at row `i` is missing for i < shift and otherwise
   * the same for any two columns that agree on rows 0 .. i - shift, whatever they hold from row
   * i - shift + 1 on (row `i` included).
   */
  lemma RunningAverageNoLookAhead(xs: seq<Value>, ys: seq<Value>, span: int, shift: int, i: int)
    requires RunningAverage(xs, span, shift).Ok? && RunningAverage(ys, span, shift).Ok?
    requires shift >= 1 && |xs| == |ys| && 0 <= i < |xs|
    requires forall j :: 0 <= j <= i - shift ==> xs[j] == ys[j]
    ensures i < shift ==> RunningAverage(xs, span, shift).value[i] == Null
    ensures RunningAverage(xs, span, shift).value[i] == RunningAverage(ys, span, shift).value[i]
  {
    RunningAverageAt(xs, span, shift, i);
    RunningAverageAt(ys, span, shift, i);
    if 0 <= i - shift {
      assert xs[..i - shift + 1] == ys[..i - shift + 1];
    }
  }

  /** The weighted mean is missing exactly while no cell so far is present. */
  lemma {:induction false} EwmMissingIff(xs: seq<Value>, alpha: real)
    requires 0.0 < alpha <= 1.0
    ensures var w := EwmScan(xs, alpha).0.weighted;
      (w == Null || w.Num?) && (w == Null <==> forall j :: 0 <= j < |xs| ==> !xs[j].Num?)
    decreases |xs|
  {
    if xs != [] {
      EwmMissingIff(xs[..|xs| - 1], alpha);
      assert forall j :: 0 <= j < |xs| - 1 ==> xs[..|xs| - 1][j] == xs[j];
    }
  }

  lemma WeightedStepBounds(ow: real, w: real, x: real, lo: real, hi: real)
    requires ow >= 0.0 && lo <= w <= hi && lo <= x <= hi
    ensures lo <= (ow * w + x) / (ow + 1.0) <= hi
  {
    assert ow * lo <= ow * w <= ow * hi;
    assert ow * lo + lo <= ow * w + x <= ow * hi + hi;
    assert (ow * lo + lo) / (ow + 1.0) == lo;
    assert (ow * hi + hi) / (ow + 1.0) == hi;
  }

  lemma NonnegativeProduct(a: real, b: real)
    requires a >= 0.0 && b >= 0.0
    ensures a * b >= 0.0
  {
  }

  lemma StepWithinRange(st: EwmState, x: Value, alpha: real, lo: real, hi: real)
    requires 0.0 < alpha <= 1.0 && st.oldWt >= 0.0
    requires st.weighted.Num? ==> lo <= st.weighted.n <= hi
    requires x.Num? ==> lo <= x.n <= hi
    ensures var w := EwmStep(st, x, alpha).weighted;
      w.Num? ==> lo <= w.n <= hi
  {
    if st.weighted.Num? && x.Num? {
      NonnegativeProduct(st.oldWt, 1.0 - alpha);
      WeightedStepBounds(st.oldWt * (1.0 - alpha), st.weighted.n, x.n, lo, hi);
    }
  }

  /** A weighted mean stays within the range of the cells it averages. */
  lemma {:induction false} EwmWithinRange(xs: seq<Value>, alpha: real, lo: real, hi: real)
    requires 0.0 < alpha <= 1.0
    requires forall j :: 0 <= j < |xs| && xs[j].Num? ==> lo <= xs[j].n <= hi
    ensures var w := EwmScan(xs, alpha).0.weighted;
      w.Num? ==> lo <= w.n <= hi
    decreases |xs|
  {
    if xs != [] {
      var prefix := xs[..|xs| - 1];
      assert forall j :: 0 <= j < |prefix| ==> prefix[j] == xs[j];
      EwmWithinRange(prefix, alpha, lo, hi);
      StepWithinRange(EwmScan(prefix, alpha).0, xs[|xs| - 1], alpha, lo, hi);
    }
  }

  /** The worked case: points 10, 20, 30 with span 2 and shift 1 give missing, 10, then 17.5. */
  lemma RunningAverageExample()
    ensures RunningAverage([Num(10.0), Num(20.0), Num(30.0)], 2, 1) == Ok([Null, Num(10.0), Num(17.5)])
  {
    var xs := [Num(10.0), Num(20.0), Num(30.0)];
    var alpha := Alpha(2);
    assert alpha == 2.0 / 3.0;
    var a1, a2 := [Num(10.0)], [Num(10.0), Num(20.0)];
    assert a1[..0] == [];
    assert EwmScan(a1[..0], alpha) == (EwmState(Null, 1.0), []);
    assert a1[|a1| - 1] == Num(10.0);
    assert EwmStep(EwmState(Null, 1.0), Num(10.0), alpha) == EwmState(Num(10.0), 1.0);
    assert a1[..|a1| - 1] == a1[..0];
    assert EwmScan(a1, alpha).0 == EwmState(Num(10.0), 1.0);
    assert EwmScan(a1, alpha).1 == [] + [Num(10.0)];
    assert a2[..1] == a1;
    assert EwmStep(EwmState(Num(10.0), 1.0), Num(20.0), alpha) == EwmState(Num(17.5), 1.0 / 3.0 + 1.0);
    assert EwmScan(a2, alpha).1 == [Num(10.0), Num(17.5)];
    assert xs[..2] == a2;
    var means := EwmScan(xs, alpha).1;
    assert means[..2] == [Num(10.0), Num(17.5)];
    assert Shift(means, 1) == [Null, Num(10.0), Num(17.5)];
  }
}
