/** The naive moving-average projection of the dashboard script: the table of
    real prices is extended day by day, each new close being the trailing
    mean of the closes before it, real or already projected. */
module Projection {
  import opened Table
  import opened Rolling

  /** Number of days projected (`projection_days`). */
  const ProjectionDays: nat := 14

  /** Width of the moving average (`window`). */
  const Window: nat := 5

  /** The date step of the projected rows, in seconds. */
  const SecondsPerDay: int := 86400

  /** `btc_data['Date'].iloc[-1]` on an empty table raises an IndexError. */
  datatype Error = NoLastDate

  datatype Result<+T> = Ok(value: T) | Err(error: Error)

  /** `future_dates`: `n` timestamps one day apart, anchored on the last real
      date with offset 0 for the first one. With `n == 0` the comprehension
      never looks at the last date, so an empty table is then no error. */
  function FutureDates(dates: seq<int>, n: nat): (r: Result<seq<int>>)
    ensures r.Err? <==> n > 0 && |dates| == 0
    ensures r.Ok? ==> |r.value| == n
    ensures r.Ok? && n > 0 ==> r.value[0] == dates[|dates| - 1]
    ensures r.Ok? ==> forall i :: 0 <= i < n - 1 ==> r.value[i + 1] == r.value[i] + SecondsPerDay
  {
    if n == 0 then Ok([])
    else if |dates| == 0 then Err(NoLastDate)
    else
      var last := dates[|dates| - 1];
      Ok(seq(n, i => last + SecondsPerDay * i))
  }

  /** The Close column after `n` passes of the projection loop started on
      `closes`: every pass appends the trailing Window-mean of the whole
      column built so far, projected closes included. */
  function Extend(closes: seq<Option<real>>, n: nat): (r: seq<Option<real>>)
    ensures |r| == |closes| + n
    ensures r[..|closes|] == closes
  {
    if n == 0 then closes
    else
      var p := Extend(closes, n - 1);
      p + [TrailingMean(p, |p|, Window)]
  }

  /** Later passes never change what earlier passes produced. */
  lemma {:induction false} ExtendPrefix(closes: seq<Option<real>>, m: nat, n: nat)
    requires n <= m
    ensures Extend(closes, m)[..|closes| + n] == Extend(closes, n)
  {
    if n < m {
      ExtendPrefix(closes, m - 1, n);
      var p := Extend(closes, m - 1);
      assert Extend(closes, m) == p + [TrailingMean(p, |p|, Window)];
      assert Extend(closes, m)[..|closes| + n] == p[..|closes| + n];
    }
  }

  /** Each projected close is the mean of the Window closes just before it;
      from the (Window+1)-th projected close on, these are all projected
      closes themselves. */
  lemma ExtendStep(closes: seq<Option<real>>, n: nat, k: nat)
    requires |closes| <= k < |closes| + n
    ensures Extend(closes, n)[k] == TrailingMean(Extend(closes, n), k, Window)
  {
    var r := Extend(closes, n);
    var i := k - |closes|;
    var p := Extend(closes, i);
    ExtendPrefix(closes, n, i + 1);
    assert Extend(closes, i + 1) == p + [TrailingMean(p, |p|, Window)];
    assert r[..k + 1] == p + [TrailingMean(p, |p|, Window)];
    assert r[k] == r[..k + 1][k];
    assert r == p + r[|p|..];
    TrailingMeanPrefix(p, r[|p|..], |p|, Window);
  }

  /** The last Window closes of `s` are all defined and lie in [lo, hi]. */
  ghost predicate TailWithin(s: seq<Option<real>>, lo: real, hi: real)
  {
    Window <= |s| &&
    forall j :: |s| - Window <= j < |s| ==> s[j].Some? && lo <= s[j].value <= hi
  }

  /** Appending the trailing mean keeps the last Window closes in [lo, hi]. */
  lemma StepWithin(p: seq<Option<real>>, lo: real, hi: real)
    requires TailWithin(p, lo, hi)
    ensures TrailingMean(p, |p|, Window).Some?
    ensures lo <= TrailingMean(p, |p|, Window).value <= hi
    ensures TailWithin(p + [TrailingMean(p, |p|, Window)], lo, hi)
  {
    MeanWithin(p, |p|, Window, lo, hi);
  }

  /** If the last Window real closes lie in [lo, hi] (for instance between
      their minimum and their maximum), every projected close is defined and
      lies in [lo, hi]. */
  lemma {:induction false} ExtendWithin(closes: seq<Option<real>>, n: nat, lo: real, hi: real)
    requires TailWithin(closes, lo, hi)
    ensures TailWithin(Extend(closes, n), lo, hi)
    ensures forall k :: |closes| <= k < |Extend(closes, n)| ==>
      Extend(closes, n)[k].Some? && lo <= Extend(closes, n)[k].value <= hi
  {
    if n > 0 {
      ExtendWithin(closes, n - 1, lo, hi);
      var p := Extend(closes, n - 1);
      StepWithin(p, lo, hi);
      assert Extend(closes, n) == p + [TrailingMean(p, |p|, Window)];
    }
  }

  /** A flat history is a fixed point: when the last Window real closes all
      equal c, every projected close equals c. */
  lemma ExtendConstant(closes: seq<Option<real>>, n: nat, c: real)
    requires Window <= |closes|
    requires forall j :: |closes| - Window <= j < |closes| ==> closes[j] == Some(c)
    ensures forall k :: |closes| <= k < |Extend(closes, n)| ==> Extend(closes, n)[k] == Some(c)
  {
    ExtendWithin(closes, n, c, c);
  }

  /** Every projected close lies between the smallest and the largest of
      the last Window real closes, when these are all defined. */
  lemma ExtendBetweenMinMax(closes: seq<Option<real>>, n: nat)
    requires TailDefined(closes)
    ensures var tail := Values(closes[|closes| - Window..]);
      forall k :: |closes| <= k < |Extend(closes, n)| ==>
        Extend(closes, n)[k].Some? &&
        MinOf(tail) <= Extend(closes, n)[k].value <= MaxOf(tail)
  {
    var window := closes[|closes| - Window..];
    var tail := Values(window);
    forall j | |closes| - Window <= j < |closes|
      ensures closes[j].Some? && MinOf(tail) <= closes[j].value <= MaxOf(tail)
    {
      assert closes[j] == window[j - (|closes| - Window)];
    }
    ExtendWithin(closes, n, MinOf(tail), MaxOf(tail));
  }

  /** Once the first projected close is undefined, every projected close is:
      each later window contains the undefined close appended just before. */
  lemma {:induction false} ExtendUndefined(closes: seq<Option<real>>, n: nat)
    requires TrailingMean(closes, |closes|, Window).None?
    ensures forall k :: |closes| <= k < |Extend(closes, n)| ==> Extend(closes, n)[k].None?
  {
    if n > 0 {
      ExtendUndefined(closes, n - 1);
      var p := Extend(closes, n - 1);
      assert Extend(closes, n) == p + [TrailingMean(p, |p|, Window)];
      if n > 1 {
        assert p[|p| - 1].None?;
        UndefinedLast(p, |p|, Window);
      }
    }
  }

  /** A history of fewer than Window rows yields only undefined projected
      closes; no error is raised for it. */
  lemma ShortHistoryUndefined(closes: seq<Option<real>>, n: nat)
    requires |closes| < Window
    ensures forall k :: |closes| <= k < |Extend(closes, n)| ==> Extend(closes, n)[k].None?
  {
    ExtendUndefined(closes, n);
  }

  /** The last Window closes of `s` are all defined. */
  ghost predicate TailDefined(s: seq<Option<real>>)
  {
    Window <= |s| && AllDefined(s[|s| - Window..])
  }

  lemma {:induction false} ExtendDefined(closes: seq<Option<real>>, n: nat)
    requires TailDefined(closes)
    ensures TailDefined(Extend(closes, n))
    ensures forall k :: |closes| <= k < |Extend(closes, n)| ==> Extend(closes, n)[k].Some?
  {
    if n > 0 {
      ExtendDefined(closes, n - 1);
      var p := Extend(closes, n - 1);
      assert AllDefined(p[|p| - Window..|p|]);
      assert Extend(closes, n) == p + [TrailingMean(p, |p|, Window)];
    }
  }

  /** A projected close is defined exactly when the first one is, that is,
      exactly when the last Window real closes exist and are all defined. */
  lemma ExtendDefinedIff(closes: seq<Option<real>>, n: nat, k: nat)
    requires |closes| <= k < |closes| + n
    ensures Extend(closes, n)[k].Some? <==> TailDefined(closes)
  {
    if TailDefined(closes) {
      ExtendDefined(closes, n);
    } else {
      if Window <= |closes| {
        assert !AllDefined(closes[|closes| - Window..|closes|]);
      }
      ExtendUndefined(closes, n);
    }
  }

  /** A worked example: the closes 100, 102, 98, 101 and 99 average 100,
      and since the mean re-enters its own window, the second projected
      close is 100 again. */
  lemma ExampleFlattens()
    ensures var closes := [Some(100.0), Some(102.0), Some(98.0), Some(101.0), Some(99.0)];
      Extend(closes, 2) == closes + [Some(100.0), Some(100.0)]
  {
    var closes := [Some(100.0), Some(102.0), Some(98.0), Some(101.0), Some(99.0)];
    var p := Extend(closes, 1);
    assert Values(closes[0..5]) == [100.0, 102.0, 98.0, 101.0, 99.0];
    assert p == closes + [Some(100.0)];
    assert Values(p[1..6]) == [102.0, 98.0, 101.0, 99.0, 100.0];
  }

  /** The SMA column as one pass of the loop leaves it: every row but the
      last holds the trailing mean over the table, the last row the value it
      was appended with, which equals its close. */
  ghost predicate SmaAfterPass(table: seq<Row>)
  {
    0 < |table| &&
    (forall k :: 0 <= k < |table| - 1 ==> table[k].sma == TrailingMean(Closes(table), k + 1, Window)) &&
    table[|table| - 1].sma == table[|table| - 1].close
  }

  /** One pass of the loop (main.py:45-49) on a non-empty table appends the
      trailing mean of its closes and leaves the SMA column as SmaAfterPass
      describes. */
  lemma Pass(table: seq<Row>, nextDate: int)
    requires 0 < |table|
    ensures var t := WithSma(table, Window);
      var lastSma := t[|t| - 1].sma;
      Closes(t + [Row(nextDate, lastSma, lastSma)]) == Closes(table) + [TrailingMean(Closes(table), |table|, Window)] &&
      SmaAfterPass(t + [Row(nextDate, lastSma, lastSma)])
  {
    var t := WithSma(table, Window);
    var lastSma := t[|t| - 1].sma;
    var next := t + [Row(nextDate, lastSma, lastSma)];
    assert Closes(t) == Closes(table);
    assert Closes(next) == Closes(table) + [lastSma];
    forall k | 0 <= k < |next| - 1
      ensures next[k].sma == TrailingMean(Closes(next), k + 1, Window)
    {
      TrailingMeanPrefix(Closes(table), [lastSma], k + 1, Window);
    }
  }

  /** The state of `btc_future_data` after `i` passes of the loop: the real
      rows with their dates, the first `i` future dates on the appended rows,
      the Close column given by the recurrence, and the SMA column as the last
      pass left it (no SMA column at all before the first pass). */
  ghost predicate AfterPasses(history: seq<Quote>, futureDates: seq<int>, i: nat, table: seq<Row>)
  {
    i <= |futureDates| && |table| == |history| + i &&
    (forall k :: 0 <= k < |history| ==> table[k].date == history[k].date) &&
    (forall k :: |history| <= k < |table| ==> table[k].date == futureDates[k - |history|]) &&
    Closes(table) == Extend(QuoteCloses(history), i) &&
    (i > 0 ==> SmaAfterPass(table)) &&
    (i == 0 ==> forall k :: 0 <= k < |table| ==> table[k].sma.None?)
  }

  /** One more pass of main.py:43-49 on a non-empty table moves it from the
      state after `i` passes to the state after `i + 1` passes. */
  lemma PassStep(history: seq<Quote>, futureDates: seq<int>, i: nat, table: seq<Row>)
    requires AfterPasses(history, futureDates, i, table)
    requires i < |futureDates| && 0 < |table|
    ensures var t := WithSma(table, Window);
      var lastSma := t[|t| - 1].sma;
      AfterPasses(history, futureDates, i + 1, t + [Row(futureDates[i], lastSma, lastSma)])
  {
    var t := WithSma(table, Window);
    var lastSma := t[|t| - 1].sma;
    var next := t + [Row(futureDates[i], lastSma, lastSma)];
    Pass(table, futureDates[i]);
    assert Closes(next) == Extend(QuoteCloses(history), i + 1);
  }

  /** What `btc_future_data` holds after the projection of `horizon` days
      on `history`. */
  ghost predicate IsProjection(history: seq<Quote>, horizon: nat, table: seq<Row>)
  {
    |table| == |history| + horizon &&
    // the real rows keep their dates and closes
    (forall k :: 0 <= k < |history| ==>
      table[k].date == history[k].date && table[k].close == history[k].close) &&
    // the first projected date repeats the last real date; then one day apart
    (horizon > 0 ==> 0 < |history| && table[|history|].date == history[|history| - 1].date) &&
    (forall k :: |history| < k < |table| ==> table[k].date == table[k - 1].date + SecondsPerDay) &&
    // the closes follow the self-referential recurrence: each projected close
    // is the mean of the Window closes just before it
    Closes(table) == Extend(QuoteCloses(history), horizon) &&
    (forall k :: |history| <= k < |table| ==>
      table[k].close == TrailingMean(Closes(table), k, Window)) &&
    // the SMA column: recomputed by the last pass except on the last row,
    // and never created when there is no pass
    (horizon > 0 ==> forall k :: 0 <= k < |table| - 1 ==>
      table[k].sma == TrailingMean(Closes(table), k + 1, Window)) &&
    (horizon > 0 ==> table[|table| - 1].sma == table[|table| - 1].close) &&
    (horizon == 0 ==> forall k :: 0 <= k < |table| ==> table[k].sma.None?)
  }

  /** The table the loop leaves after all `horizon` passes is the projection. */
  lemma Projected(history: seq<Quote>, horizon: nat, futureDates: seq<int>, table: seq<Row>)
    requires FutureDates(QuoteDates(history), horizon) == Ok(futureDates)
    requires AfterPasses(history, futureDates, horizon, table)
    ensures IsProjection(history, horizon, table)
  {
    ProjectedCloses(history, horizon, table);
    ProjectedDates(history, horizon, futureDates, table);
  }

  /** A table whose Close column is the recurrence run on the real closes
      keeps the real closes and holds, in every projected row, the mean of
      the Window closes just before it. */
  lemma ProjectedCloses(history: seq<Quote>, horizon: nat, table: seq<Row>)
    requires Closes(table) == Extend(QuoteCloses(history), horizon)
    ensures forall k :: 0 <= k < |history| ==> table[k].close == history[k].close
    ensures forall k :: |history| <= k < |table| ==>
      table[k].close == TrailingMean(Closes(table), k, Window)
  {
    var start := QuoteCloses(history);
    assert Closes(table)[..|history|] == start;
    forall k | 0 <= k < |history|
      ensures table[k].close == history[k].close
    {
      assert Closes(table)[..|history|][k] == start[k];
    }
    forall k | |history| <= k < |table|
      ensures table[k].close == TrailingMean(Closes(table), k, Window)
    {
      ExtendStep(start, horizon, k);
    }
  }

  /** A table whose projected rows carry `future_dates` in order has its
      first projected date on the last real date and the later ones one day
      apart. */
  lemma ProjectedDates(history: seq<Quote>, horizon: nat, futureDates: seq<int>, table: seq<Row>)
    requires FutureDates(QuoteDates(history), horizon) == Ok(futureDates)
    requires |table| == |history| + horizon
    requires forall k :: |history| <= k < |table| ==> table[k].date == futureDates[k - |history|]
    ensures horizon > 0 ==> 0 < |history| && table[|history|].date == history[|history| - 1].date
    ensures forall k :: |history| < k < |table| ==> table[k].date == table[k - 1].date + SecondsPerDay
  {
  }

  /** The projection of main.py:40-49 for `horizon` days (the script runs it
      with ProjectionDays): it returns `btc_future_data` after the loop. */
  method Project(history: seq<Quote>, horizon: nat) returns (r: Result<seq<Row>>)
    ensures r.Err? <==> horizon > 0 && |history| == 0
    ensures r.Ok? ==> IsProjection(history, horizon, r.value)
  {
    var dates := FutureDates(QuoteDates(history), horizon);
    if dates.Err? {
      return Err(dates.error);
    }
    var futureDates := dates.value;
    var table := Copy(history);
    CopyCloses(history);
    var i := 0;
    while i < horizon
      invariant i <= horizon
      invariant AfterPasses(history, futureDates, i, table)
    {
      var nextDate := futureDates[i];
      PassStep(history, futureDates, i, table);
      table := WithSma(table, Window);
      var lastSma := table[|table| - 1].sma;
      table := table + [Row(nextDate, lastSma, lastSma)];
      i := i + 1;
    }
    Projected(history, horizon, futureDates, table);
    return Ok(table);
  }

  /** When the last Window real closes are not all there (fewer than Window
      rows, or an undefined one among them), a table whose Close column is
      the recurrence and whose SMA column is as the last pass left it has an
      undefined close and an undefined SMA on every projected row. */
  lemma UndefinedProjectedRows(start: seq<Option<real>>, horizon: nat, table: seq<Row>)
    requires 0 < horizon && !TailDefined(start)
    requires Closes(table) == Extend(start, horizon)
    requires forall k :: 0 <= k < |table| - 1 ==> table[k].sma == TrailingMean(Closes(table), k + 1, Window)
    requires table[|table| - 1].sma == table[|table| - 1].close
    ensures forall k :: |start| <= k < |table| ==> table[k].close.None? && table[k].sma.None?
  {
    var c := Closes(table);
    forall k | |start| <= k < |table|
      ensures table[k].close.None? && table[k].sma.None?
    {
      ExtendDefinedIff(start, horizon, k);
      assert c[k] == table[k].close;
      if k < |table| - 1 {
        UndefinedLast(c, k + 1, Window);
      }
    }
  }

  /** With 1 to Window - 1 real rows, or an undefined close among the last
      Window real ones, every projected row has an undefined close and an
      undefined SMA; no error is raised for it. */
  lemma ShortHistoryTable(history: seq<Quote>, horizon: nat, table: seq<Row>)
    requires 0 < horizon && !TailDefined(QuoteCloses(history))
    requires IsProjection(history, horizon, table)
    ensures forall k :: |history| <= k < |table| ==> table[k].close.None? && table[k].sma.None?
  {
    UndefinedProjectedRows(QuoteCloses(history), horizon, table);
  }

  /** In a table whose first projected date is the last real date and whose
      later projected dates are one day apart (as in IsProjection), the i-th
      projected row is dated i days after the last real date. */
  lemma {:induction false} ProjectedDateAt(history: seq<Quote>, horizon: nat, table: seq<Row>, i: nat)
    requires |table| == |history| + horizon && 0 < |history| && i < horizon
    requires table[|history|].date == history[|history| - 1].date
    requires forall k :: |history| < k < |table| ==> table[k].date == table[k - 1].date + SecondsPerDay
    ensures table[|history| + i].date == history[|history| - 1].date + SecondsPerDay * i
  {
    if i > 0 {
      ProjectedDateAt(history, horizon, table, i - 1);
      assert table[|history| + i].date == table[|history| + i - 1].date + SecondsPerDay;
    }
  }

  /** The script's case, ProjectionDays = 14 on a non-empty table: 14 more
      rows, the first dated on the last real date and the last 13 days
      later. */
  lemma ScriptProjection(history: seq<Quote>, table: seq<Row>)
    requires IsProjection(history, ProjectionDays, table)
    ensures |table| == |history| + 14
    ensures table[|history|].date == history[|history| - 1].date
    ensures table[|table| - 1].date == history[|history| - 1].date + SecondsPerDay * 13
  {
    ProjectedDateAt(history, ProjectionDays, table, ProjectionDays - 1);
  }
}
