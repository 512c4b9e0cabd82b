/** The price tables of the dashboard script: the downloaded `btc_data` table
    (Date, Close) and its working copy `btc_future_data`, which gains an SMA
    column. Timestamps are whole seconds; a missing value (pandas' NaN) is None. */
module Table {

  datatype Option<+T> = None | Some(value: T)

  /** One row of `btc_data`. */
  datatype Quote = Quote(date: int, close: Option<real>)

  /** One row of `btc_future_data`: a row of `btc_data` plus its SMA cell. */
  datatype Row = Row(date: int, close: Option<real>, sma: Option<real>)

  /** The Date column of `btc_data`. */
  function QuoteDates(history: seq<Quote>): (dates: seq<int>)
    ensures |dates| == |history|
    ensures forall k :: 0 <= k < |history| ==> dates[k] == history[k].date
  {
    seq(|history|, k requires 0 <= k < |history| => history[k].date)
  }

  /** The Close column of `btc_data`. */
  function QuoteCloses(history: seq<Quote>): (closes: seq<Option<real>>)
    ensures |closes| == |history|
    ensures forall k :: 0 <= k < |history| ==> closes[k] == history[k].close
  {
    seq(|history|, k requires 0 <= k < |history| => history[k].close)
  }

  /** The Close column of `btc_future_data`. */
  function Closes(rows: seq<Row>): (closes: seq<Option<real>>)
    ensures |closes| == |rows|
    ensures forall k :: 0 <= k < |rows| ==> closes[k] == rows[k].close
  {
    seq(|rows|, k requires 0 <= k < |rows| => rows[k].close)
  }

  /** `btc_data.copy()`: the same dates and closes, and no SMA column yet. */
  function Copy(history: seq<Quote>): (rows: seq<Row>)
    ensures |rows| == |history|
    ensures forall k :: 0 <= k < |history| ==> rows[k] == Row(history[k].date, history[k].close, None)
  {
    seq(|history|, k requires 0 <= k < |history| => Row(history[k].date, history[k].close, None))
  }

  /** The copy carries exactly the closes of `btc_data`. */
  lemma CopyCloses(history: seq<Quote>)
    ensures Closes(Copy(history)) == QuoteCloses(history)
  {
  }
}
