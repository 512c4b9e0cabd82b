/** pandas' `Series.rolling(window=w).mean()` with its default
    `min_periods = w`, over real numbers instead of doubles. */
module Rolling {
  import opened Table

  function Sum(v: seq<real>): real
  {
    if v == [] then 0.0 else v[0] + Sum(v[1..])
  }

  predicate AllDefined(s: seq<Option<real>>)
  {
    forall j :: 0 <= j < |s| ==> s[j].Some?
  }

  function Values(s: seq<Option<real>>): (v: seq<real>)
    requires AllDefined(s)
    ensures |v| == |s|
    ensures forall j :: 0 <= j < |s| ==> v[j] == s[j].value
  {
    seq(|s|, j requires 0 <= j < |s| => s[j].value)
  }

  /** The mean of the `w` closes just before index `end`, that is, the value
      the rolling mean puts in row `end - 1`. It is undefined (NaN) when fewer
      than `w` rows end there or one of the `w` closes is itself undefined. */
  function TrailingMean(closes: seq<Option<real>>, end: nat, w: nat): (r: Option<real>)
    requires 0 < w && end <= |closes|
    ensures r.Some? <==> w <= end && AllDefined(closes[end - w..end])
    ensures r.Some? ==> r.value * (w as real) == Sum(Values(closes[end - w..end]))
  {
    if end < w || !AllDefined(closes[end - w..end]) then None
    else Some(Sum(Values(closes[end - w..end])) / (w as real))
  }

  /** The SMA column that `rows['Close'].rolling(window=w).mean()` assigns. */
  function WithSma(rows: seq<Row>, w: nat): (r: seq<Row>)
    requires 0 < w
    ensures |r| == |rows|
    ensures forall k :: 0 <= k < |rows| ==>
      r[k] == rows[k].(sma := TrailingMean(Closes(rows), k + 1, w))
  {
    seq(|rows|, k requires 0 <= k < |rows| => rows[k].(sma := TrailingMean(Closes(rows), k + 1, w)))
  }

  /** The smallest of a non-empty sequence of values. */
  function MinOf(v: seq<real>): (m: real)
    requires |v| > 0
    ensures m in v
    ensures forall j :: 0 <= j < |v| ==> m <= v[j]
  {
    if |v| == 1 then v[0]
    else
      var rest := MinOf(v[1..]);
      if v[0] <= rest then v[0] else rest
  }

  /** The largest of a non-empty sequence of values. */
  function MaxOf(v: seq<real>): (m: real)
    requires |v| > 0
    ensures m in v
    ensures forall j :: 0 <= j < |v| ==> v[j] <= m
  {
    if |v| == 1 then v[0]
    else
      var rest := MaxOf(v[1..]);
      if rest <= v[0] then v[0] else rest
  }

  /** A sum of values in [lo, hi] lies between |v| * lo and |v| * hi. */
  lemma {:induction false} SumBounds(v: seq<real>, lo: real, hi: real)
    requires forall j :: 0 <= j < |v| ==> lo <= v[j] <= hi
    ensures (|v| as real) * lo <= Sum(v) <= (|v| as real) * hi
  {
    if v != [] {
      SumBounds(v[1..], lo, hi);
    }
  }

  /** A trailing mean over `w` defined closes that all lie in [lo, hi] is
      defined and lies in [lo, hi] too. */
  lemma MeanWithin(closes: seq<Option<real>>, end: nat, w: nat, lo: real, hi: real)
    requires 0 < w <= end <= |closes|
    requires forall j :: end - w <= j < end ==> closes[j].Some? && lo <= closes[j].value <= hi
    ensures TrailingMean(closes, end, w).Some?
    ensures lo <= TrailingMean(closes, end, w).value <= hi
  {
    var window := closes[end - w..end];
    assert AllDefined(window);
    var v := Values(window);
    SumBounds(v, lo, hi);
    assert |v| == w;
    var m := TrailingMean(closes, end, w).value;
    assert m * (w as real) == Sum(v);
    ScaledBounds(m, w as real, Sum(v), lo, hi);
  }

  lemma ScaledBounds(m: real, w: real, sum: real, lo: real, hi: real)
    requires 0.0 < w && m * w == sum && w * lo <= sum <= w * hi
    ensures lo <= m <= hi
  {
  }

  /** Rows appended after index `end` do not change the trailing mean there. */
  lemma TrailingMeanPrefix(closes: seq<Option<real>>, more: seq<Option<real>>, end: nat, w: nat)
    requires 0 < w && end <= |closes|
    ensures TrailingMean(closes + more, end, w) == TrailingMean(closes, end, w)
  {
    if w <= end {
      assert (closes + more)[end - w..end] == closes[end - w..end];
    }
  }

  /** A window that ends with an undefined close has an undefined mean. */
  lemma UndefinedLast(closes: seq<Option<real>>, end: nat, w: nat)
    requires 0 < w && 0 < end <= |closes| && closes[end - 1].None?
    ensures TrailingMean(closes, end, w).None?
  {
  }
}
