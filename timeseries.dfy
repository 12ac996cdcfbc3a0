/** The preparation of the daily series for forecasting (`forecasting_timeseries_preparation`
    and `_apply_stationarity_transformations` in src/forecasting_timeseries_preparation.py):
    parse the dates in place, sum and count the amounts per day, add a transformed column when
    the series is not stationary, and sort by day. */
module TimeSeriesPreparation {
  import opened Basics
  import opened Dates

  /** A DATA cell of the cleaned file: empty (NaT), text, or a day once parsed. */
  datatype DateCell = Blank | Text(text: string) | Day(day: Date)

  /** The two columns the preparation reads; the others play no part. */
  datatype Expense = Expense(data: DateCell, valor: Option<real>)

  /** Why the preparation raised: a DATA text that is not a day. */
  datatype PrepError = UnparseableDate(text: string)

  /** `pd.to_datetime` on one cell: an empty cell is NaT, text must name a Timestamp day. */
  function ConvertCell(c: DateCell): (r: Result<DateCell, PrepError>)
    ensures r.Ok? ==> !r.value.Text?
    ensures r.Err? ==> c.Text?
  {
    match c
    case Blank => Ok(Blank)
    case Day(d) => Ok(Day(d))
    case Text(s) =>
      match ParseIso(s)
      case Some(d) => Ok(Day(d))
      case None => Err(UnparseableDate(s))
  }

  /** The day text `to_csv` writes for a day is read back as that day, and it is the only text
      read as that day. */
  lemma ConvertCellExact(s: string, d: Date)
    ensures ConvertCell(Text(s)) == Ok(Day(d)) <==> IsTimestampDay(d) && s == FormatIso(d)
  {
    if ConvertCell(Text(s)) == Ok(Day(d)) {
      ParseIsoExact(s, d);
    }
    if IsTimestampDay(d) && s == FormatIso(d) {
      ParseIsoRoundTrip(d);
    }
  }

  /** The conversion of the whole column: one text that is not a day makes it raise. */
  function ConvertAll(rows: seq<Expense>): (r: Result<seq<Expense>, PrepError>)
    ensures r.Ok? <==> forall i :: 0 <= i < |rows| ==> ConvertCell(rows[i].data).Ok?
    ensures r.Ok? ==> |r.value| == |rows| && forall i :: 0 <= i < |rows| ==>
      r.value[i] == rows[i].(data := ConvertCell(rows[i].data).value) && !r.value[i].data.Text?
    ensures r.Err? ==> exists i :: 0 <= i < |rows| && ConvertCell(rows[i].data) == Err(r.error)
    decreases |rows|
  {
    if rows == [] then Ok([])
    else
      var n := |rows| - 1;
      match ConvertAll(rows[..n])
      case Err(e) => Err(e)
      case Ok(prefix) =>
        match ConvertCell(rows[n].data)
        case Err(e) => Err(e)
        case Ok(c) => Ok(prefix + [rows[n].(data := c)])
  }

  /** The cleaned expense rows, whose DATA column is parsed in place. */
  class ExpenseFrame {
    var rows: seq<Expense>

    constructor (rows: seq<Expense>)
      ensures this.rows == rows
    {
      this.rows := rows;
    }

    /** `data["DATA"] = pd.to_datetime(data["DATA"])`: on success every DATA cell is a day or
        NaT; when a text is not a day the call raises and the frame is left as it was. */
    method ConvertDates() returns (err: Option<PrepError>)
      modifies this
      ensures ConvertAll(old(rows)).Ok? ==> err.None? && rows == ConvertAll(old(rows)).value
      ensures ConvertAll(old(rows)).Err? ==> err == Some(ConvertAll(old(rows)).error) && rows == old(rows)
    {
      var converted := ConvertAll(rows);
      if converted.Err? {
        return Some(converted.error);
      }
      rows := converted.value;
      err := None;
    }
  }

  /** A value of the added column: NaN, a number, or the natural logarithm of an amount
      (floating-point logarithms are not modelled, so the value is kept symbolic). */
  datatype Derived = Missing | Value(v: real) | LogOf(arg: real)

  /** One row of the daily series: the day, the sum and the count of its amounts, and the
      VALOR_REEMBOLSADO_stationary cell once that column exists. */
  datatype DailyRow = DailyRow(data: Date, valor: real, count: nat, stationary: Option<Derived>)

  /** The day of a row, if it has one. */
  function DayOf(e: Expense): Option<Date>
  {
    if e.data.Day? then Some(e.data.day) else None
  }

  /** What an amount adds to a sum (NaN adds nothing) and to a count (NaN is not counted). */
  function Amount(v: Option<real>): real
  {
    if v.Some? then v.value else 0.0
  }

  function Counted(v: Option<real>): nat
  {
    if v.Some? then 1 else 0
  }

  /** The specification of the grouping, by the rows themselves: the days present, and for a
      day the sum and the count of the amounts of its rows. */
  function DaysPresent(rows: seq<Expense>): set<Date>
    decreases |rows|
  {
    if rows == [] then {}
    else
      var n := |rows| - 1;
      DaysPresent(rows[..n]) + (if DayOf(rows[n]).Some? then {DayOf(rows[n]).value} else {})
  }

  function SumOn(rows: seq<Expense>, d: Date): real
    decreases |rows|
  {
    if rows == [] then 0.0
    else
      var n := |rows| - 1;
      SumOn(rows[..n], d) + (if DayOf(rows[n]) == Some(d) then Amount(rows[n].valor) else 0.0)
  }

  function CountOn(rows: seq<Expense>, d: Date): nat
    decreases |rows|
  {
    if rows == [] then 0
    else
      var n := |rows| - 1;
      CountOn(rows[..n], d) + (if DayOf(rows[n]) == Some(d) then Counted(rows[n].valor) else 0)
  }

  /** The number of rows that have both a day and an amount, and the sum of their amounts. */
  function DatedAmounts(rows: seq<Expense>): nat
    decreases |rows|
  {
    if rows == [] then 0
    else
      var n := |rows| - 1;
      DatedAmounts(rows[..n]) + (if DayOf(rows[n]).Some? then Counted(rows[n].valor) else 0)
  }

  function DatedTotal(rows: seq<Expense>): real
    decreases |rows|
  {
    if rows == [] then 0.0
    else
      var n := |rows| - 1;
      DatedTotal(rows[..n]) + (if DayOf(rows[n]).Some? then Amount(rows[n].valor) else 0.0)
  }

  /** The days of a daily series strictly increase. */
  predicate Ascending(g: seq<DailyRow>)
  {
    forall i, j :: 0 <= i < j < |g| ==> Before(g[i].data, g[j].data)
  }

  function Keys(g: seq<DailyRow>): set<Date>
  {
    set i | 0 <= i < |g| :: g[i].data
  }

  /** The series read as a table from day to sum and count (0 for an absent day). */
  function SumAt(g: seq<DailyRow>, d: Date): real
    decreases |g|
  {
    if g == [] then 0.0 else (if g[0].data == d then g[0].valor else 0.0) + SumAt(g[1..], d)
  }

  function CountAt(g: seq<DailyRow>, d: Date): nat
    decreases |g|
  {
    if g == [] then 0 else (if g[0].data == d then g[0].count else 0) + CountAt(g[1..], d)
  }

  function TotalCount(g: seq<DailyRow>): nat
    decreases |g|
  {
    if g == [] then 0 else g[0].count + TotalCount(g[1..])
  }

  function TotalSum(g: seq<DailyRow>): real
    decreases |g|
  {
    if g == [] then 0.0 else g[0].valor + TotalSum(g[1..])
  }

  predicate NoStationary(g: seq<DailyRow>)
  {
    forall i :: 0 <= i < |g| ==> g[i].stationary.None?
  }

  /** Every row holds a stationary cell exactly when the column exists. */
  predicate StationaryColumn(g: seq<DailyRow>, has: bool)
  {
    forall i :: 0 <= i < |g| ==> (g[i].stationary.Some? <==> has)
  }

  /** Adds one dated amount to an ascending series: the day's row is updated, or a new row is
      put in its place. */
  function AddAt(g: seq<DailyRow>, d: Date, v: Option<real>): (r: seq<DailyRow>)
    ensures |g| <= |r| <= |g| + 1
    decreases |g|
  {
    if g == [] then [DailyRow(d, Amount(v), Counted(v), None)]
    else if g[0].data == d then [g[0].(valor := g[0].valor + Amount(v), count := g[0].count + Counted(v))] + g[1..]
    else if Before(d, g[0].data) then [DailyRow(d, Amount(v), Counted(v), None)] + g
    else [g[0]] + AddAt(g[1..], d, v)
  }

  /** The days of a non-empty series are its first day and the days of the rest. */
  lemma KeysCons(g: seq<DailyRow>)
    requires g != []
    ensures Keys(g) == {g[0].data} + Keys(g[1..])
  {
    forall k | k in Keys(g) ensures k in {g[0].data} + Keys(g[1..]) {
      var i :| 0 <= i < |g| && g[i].data == k;
      if i > 0 { assert g[1..][i - 1].data == k; }
    }
    forall k | k in Keys(g[1..]) ensures k in Keys(g) {
      var i :| 0 <= i < |g[1..]| && g[1..][i].data == k;
      assert g[i + 1].data == k;
    }
  }

  /** Adding an amount adds its day to the days of the series. */
  lemma {:induction false} AddAtKeys(g: seq<DailyRow>, d: Date, v: Option<real>)
    ensures Keys(AddAt(g, d, v)) == Keys(g) + {d}
    decreases |g|
  {
    var r := AddAt(g, d, v);
    if g == [] {
      assert Keys(r) == {d} by {
        KeysCons(r);
        assert r[1..] == [];
      }
    } else {
      KeysCons(r);
      KeysCons(g);
      if g[0].data == d {
        assert r[0].data == d && r[1..] == g[1..];
      } else if Before(d, g[0].data) {
        assert r[0].data == d && r[1..] == g;
      } else {
        AddAtKeys(g[1..], d, v);
        assert r[0] == g[0] && r[1..] == AddAt(g[1..], d, v);
      }
    }
  }

  /** Every day of the series comes after `d`. */
  predicate AllAfter(g: seq<DailyRow>, d: Date)
  {
    forall k :: 0 <= k < |g| ==> Before(d, g[k].data)
  }

  /** A row before every day of an ascending series can be put in front of it. */
  lemma AscendingCons(x: DailyRow, t: seq<DailyRow>)
    requires Ascending(t) && AllAfter(t, x.data)
    ensures Ascending([x] + t)
  {
    var r := [x] + t;
    forall i, j | 0 <= i < j < |r| ensures Before(r[i].data, r[j].data) {
      assert r[j] == t[j - 1];
      if i > 0 { assert r[i] == t[i - 1]; }
    }
  }

  /** Adding an amount on a day after `b` to a series whose days are after `b` keeps them so. */
  lemma {:induction false} AddAtAfter(g: seq<DailyRow>, d: Date, v: Option<real>, b: Date)
    requires AllAfter(g, b) && Before(b, d)
    ensures AllAfter(AddAt(g, d, v), b)
    decreases |g|
  {
    if g != [] && g[0].data != d && !Before(d, g[0].data) {
      AddAtAfter(g[1..], d, v, b);
    }
  }

  /** Adding an amount to an ascending series keeps it ascending. */
  lemma {:induction false} AddAtAscending(g: seq<DailyRow>, d: Date, v: Option<real>)
    requires Ascending(g)
    ensures Ascending(AddAt(g, d, v))
    decreases |g|
  {
    var r := AddAt(g, d, v);
    if g == [] {
    } else if g[0].data == d {
      assert r[1..] == g[1..];
    } else if Before(d, g[0].data) {
      forall k | 0 <= k < |g| ensures Before(d, g[k].data) {
        if k > 0 {
          BeforeTransitive(d, g[0].data, g[k].data);
        }
      }
      AscendingCons(r[0], g);
    } else {
      var tail := AddAt(g[1..], d, v);
      AddAtAscending(g[1..], d, v);
      BeforeTotal(d, g[0].data);
      assert AllAfter(g[1..], g[0].data);
      AddAtAfter(g[1..], d, v, g[0].data);
      AscendingCons(g[0], tail);
    }
  }

  /** Adding an amount adds it to that day's sum and count only. */
  lemma {:induction false} AddAtCells(g: seq<DailyRow>, d: Date, v: Option<real>, k: Date)
    ensures SumAt(AddAt(g, d, v), k) == SumAt(g, k) + (if k == d then Amount(v) else 0.0)
    ensures CountAt(AddAt(g, d, v), k) == CountAt(g, k) + (if k == d then Counted(v) else 0)
    decreases |g|
  {
    var r := AddAt(g, d, v);
    if g == [] {
      assert r[1..] == [];
    } else if g[0].data == d {
      assert r[1..] == g[1..];
    } else if Before(d, g[0].data) {
      assert r[1..] == g;
    } else {
      AddAtCells(g[1..], d, v, k);
      assert r[1..] == AddAt(g[1..], d, v);
    }
  }

  /** Adding an amount adds it to the totals, and sets no stationary cell. */
  lemma {:induction false} AddAtTotals(g: seq<DailyRow>, d: Date, v: Option<real>)
    ensures var r := AddAt(g, d, v);
      && TotalCount(r) == TotalCount(g) + Counted(v)
      && TotalSum(r) == TotalSum(g) + Amount(v)
      && (NoStationary(g) ==> NoStationary(r))
    decreases |g|
  {
    var r := AddAt(g, d, v);
    if g == [] {
      assert r[1..] == [];
    } else if g[0].data == d {
      assert r[1..] == g[1..];
    } else if Before(d, g[0].data) {
      assert r[1..] == g;
    } else {
      AddAtTotals(g[1..], d, v);
      assert r[1..] == AddAt(g[1..], d, v);
      if NoStationary(g) {
        assert NoStationary(g[1..]);
      }
    }
  }

  /** `groupby("DATA")["VALOR_REEMBOLSADO"].agg(["sum", "count"]).reset_index()`, with the
      columns renamed DATA, VALOR_REEMBOLSADO and COUNT: rows without a day are left out, the
      amounts of each day are summed (NaN skipped) and counted, and the days come out sorted. */
  function GroupByDate(rows: seq<Expense>): (g: seq<DailyRow>)
    ensures |g| <= |rows|
    decreases |rows|
  {
    if rows == [] then []
    else
      var n := |rows| - 1;
      var g := GroupByDate(rows[..n]);
      if rows[n].data.Day? then AddAt(g, rows[n].data.day, rows[n].valor) else g
  }

  /** The grouping, read as a table, is the specification by rows. */
  lemma {:induction false} GroupByDateTable(rows: seq<Expense>)
    ensures var g := GroupByDate(rows);
      && Ascending(g)
      && Keys(g) == DaysPresent(rows)
      && (forall k :: SumAt(g, k) == SumOn(rows, k) && CountAt(g, k) == CountOn(rows, k))
      && TotalCount(g) == DatedAmounts(rows)
      && TotalSum(g) == DatedTotal(rows)
      && NoStationary(g)
    decreases |rows|
  {
    if rows != [] {
      var n := |rows| - 1;
      GroupByDateTable(rows[..n]);
      if rows[n].data.Day? {
        var g := GroupByDate(rows[..n]);
        AddAtKeys(g, rows[n].data.day, rows[n].valor);
        AddAtAscending(g, rows[n].data.day, rows[n].valor);
        forall k {
          AddAtCells(g, rows[n].data.day, rows[n].valor, k);
        }
        AddAtTotals(g, rows[n].data.day, rows[n].valor);
      }
    }
  }

  /** In an ascending series each day has one row, so the table's entry for a row's day is
      that row. */
  lemma {:induction false} AscendingLookup(g: seq<DailyRow>, i: nat)
    requires Ascending(g) && i < |g|
    ensures SumAt(g, g[i].data) == g[i].valor && CountAt(g, g[i].data) == g[i].count
    decreases |g|
  {
    if i == 0 {
      AscendingAbsent(g[1..], g[0].data);
    } else {
      assert Before(g[0].data, g[i].data);
      AscendingLookup(g[1..], i - 1);
    }
  }

  /** A day before every day of an ascending series has no entry in it. */
  lemma {:induction false} AscendingAbsent(g: seq<DailyRow>, d: Date)
    requires Ascending(g) && forall i :: 0 <= i < |g| ==> g[i].data != d
    ensures SumAt(g, d) == 0.0 && CountAt(g, d) == 0
    decreases |g|
  {
    if g != [] {
      AscendingAbsent(g[1..], d);
    }
  }

  /** The days of a series, in order. */
  function DayColumn(g: seq<DailyRow>): (c: seq<Date>)
    ensures |c| == |g| && forall i :: 0 <= i < |g| ==> c[i] == g[i].data
  {
    seq(|g|, i requires 0 <= i < |g| => g[i].data)
  }

  /** An ascending series has one row per day. */
  lemma AscendingCardinality(g: seq<DailyRow>)
    requires Ascending(g)
    ensures |g| == |Keys(g)|
  {
    var c := DayColumn(g);
    assert NoDuplicates(c);
    DistinctCardinality(c);
    assert Elements(c) == Keys(g) by {
      forall k | k in Keys(g) ensures k in Elements(c) {
        var i :| 0 <= i < |g| && g[i].data == k;
        assert c[i] == k;
      }
    }
  }

  /** Each row of the grouping holds the sum and the count of its day's amounts. */
  lemma GroupByDateRows(rows: seq<Expense>)
    ensures var g := GroupByDate(rows);
      forall i :: 0 <= i < |g| ==> g[i].valor == SumOn(rows, g[i].data) && g[i].count == CountOn(rows, g[i].data)
  {
    var g := GroupByDate(rows);
    GroupByDateTable(rows);
    forall i | 0 <= i < |g|
      ensures g[i].valor == SumOn(rows, g[i].data) && g[i].count == CountOn(rows, g[i].data)
    {
      AscendingLookup(g, i);
    }
  }

  /** The grouping has one row per day present in the input, and each row holds the sum and
      the count of that day's amounts; the counts add up to the rows that have a day and an
      amount, and the sums to their amounts. */
  lemma GroupByDateSpec(rows: seq<Expense>)
    ensures var g := GroupByDate(rows);
      && Ascending(g)
      && |g| == |DaysPresent(rows)|
      && (forall d :: d in DaysPresent(rows) <==> exists i :: 0 <= i < |g| && g[i].data == d)
      && (forall i :: 0 <= i < |g| ==> g[i].valor == SumOn(rows, g[i].data) && g[i].count == CountOn(rows, g[i].data))
      && TotalCount(g) == DatedAmounts(rows)
      && TotalSum(g) == DatedTotal(rows)
  {
    GroupByDateTable(rows);
    GroupByDateRows(rows);
    AscendingCardinality(GroupByDate(rows));
  }

  /** A day's rows can all lack an amount: the day keeps a row whose sum is 0 and count is 0. */
  lemma AllMissingDay(d: Date)
    ensures GroupByDate([Expense(Day(d), None)]) == [DailyRow(d, 0.0, 0, None)]
  {
    assert [Expense(Day(d), None)][..0] == [];
  }

  /** The series with one stationary cell per row (a new column, or a replaced one). */
  function WithStationary(g: seq<DailyRow>, col: seq<Derived>): (r: seq<DailyRow>)
    requires |col| == |g|
    ensures |r| == |g| && forall i :: 0 <= i < |g| ==>
      r[i] == g[i].(stationary := Some(col[i]))
  {
    seq(|g|, i requires 0 <= i < |g| => g[i].(stationary := Some(col[i])))
  }

  /** `data["VALOR_REEMBOLSADO"]`, `.diff(periods=1)` and `np.log(...)` as columns. */
  function AmountSeries(g: seq<DailyRow>): (c: seq<Derived>)
    ensures |c| == |g| && forall i :: 0 <= i < |g| ==> c[i] == Value(g[i].valor)
  {
    seq(|g|, i requires 0 <= i < |g| => Value(g[i].valor))
  }

  function DiffColumn(g: seq<DailyRow>): (c: seq<Derived>)
    ensures |c| == |g|
    ensures |g| > 0 ==> c[0] == Missing
    ensures forall i :: 0 < i < |g| ==> c[i] == Value(g[i].valor - g[i - 1].valor)
  {
    seq(|g|, i requires 0 <= i < |g| => if i == 0 then Missing else Value(g[i].valor - g[i - 1].valor))
  }

  function LogColumn(g: seq<DailyRow>): (c: seq<Derived>)
    ensures |c| == |g| && forall i :: 0 <= i < |g| ==> c[i] == LogOf(g[i].valor)
  {
    seq(|g|, i requires 0 <= i < |g| => LogOf(g[i].valor))
  }

  /** The stationary column of a series as the test sees it. */
  function StationarySeries(g: seq<DailyRow>): (c: seq<Derived>)
    ensures |c| == |g| && forall i :: 0 <= i < |g| ==>
      c[i] == (if g[i].stationary.Some? then g[i].stationary.value else Missing)
  {
    seq(|g|, i requires 0 <= i < |g| => if g[i].stationary.Some? then g[i].stationary.value else Missing)
  }

  /** The three values of an augmented Dickey-Fuller test that the stationarity check reads:
      the test statistic, its p-value and the 1% critical value. */
  datatype AdfResult = AdfResult(statistic: real, pValue: real, critical1: real)

  /** The default p-value threshold. */
  const Threshold: real := 0.05

  /** The check as written: `result[4]["1%"] < [4]` compares the critical value with the list
      [4], which numpy broadcasts to "below 4". */
  predicate IsStationaryAsWritten(r: AdfResult, threshold: real): (b: bool)
    ensures b ==> r.pValue <= threshold && r.statistic < 0.0
  {
    r.pValue <= threshold && r.statistic < 0.0 && r.critical1 < 4.0
  }

  /** The check as evidently intended: significant p-value, negative statistic, and statistic
      below the 1% critical value. */
  predicate IsStationary(r: AdfResult, threshold: real): (b: bool)
    ensures b ==> r.pValue <= threshold && r.statistic < r.critical1
  {
    r.pValue <= threshold && r.statistic < 0.0 && r.statistic < r.critical1
  }

  /** Critical values of the test are negative, so the third test as written never decides
      anything: only the p-value and the sign of the statistic count. */
  lemma AsWrittenIgnoresCriticalValue(r: AdfResult, threshold: real)
    requires r.critical1 < 0.0
    ensures IsStationaryAsWritten(r, threshold) <==> r.pValue <= threshold && r.statistic < 0.0
  {
  }

  /** A statistic above the 1% critical value passes the check as written and fails the
      intended one. */
  lemma StationarityCounterexample()
    ensures IsStationaryAsWritten(AdfResult(-1.0, 0.03, -3.43), Threshold)
    ensures !IsStationary(AdfResult(-1.0, 0.03, -3.43), Threshold)
  {
  }

  /** The intended check is stricter than the one written: everything it accepts the written
      one accepts too, and it puts the statistic below the critical value. */
  lemma IsStationaryStricter(r: AdfResult, threshold: real)
    requires r.critical1 < 4.0
    ensures IsStationary(r, threshold) ==> IsStationaryAsWritten(r, threshold) && r.statistic < r.critical1
  {
  }

  /** What `_apply_stationarity_transformations` concluded. */
  datatype Verdict = AlreadyStationary | MadeStationary | StillNotStationary

  /** The daily series, whose stationary column is added in place. */
  class DailyFrame {
    var rows: seq<DailyRow>
    var hasStationary: bool

    /** A frame whose rows hold a stationary cell exactly when the column exists. */
    constructor (rows: seq<DailyRow>, hasStationary: bool)
      requires StationaryColumn(rows, hasStationary)
      ensures this.rows == rows && this.hasStationary == hasStationary
      ensures Valid()
    {
      this.rows := rows;
      this.hasStationary := hasStationary;
    }

    /** Every row has a stationary cell exactly when the column exists. */
    predicate Valid()
      reads this
    {
      StationaryColumn(rows, hasStationary)
    }

    /** The column names after the rename, with the added column last. */
    function Columns(): (c: seq<string>)
      reads this
      ensures |c| == (if hasStationary then 4 else 3)
      ensures c[..3] == ["DATA", "VALOR_REEMBOLSADO", "COUNT"]
      ensures hasStationary ==> c[3] == "VALOR_REEMBOLSADO_stationary"
    {
      ["DATA", "VALOR_REEMBOLSADO", "COUNT"] + (if hasStationary then ["VALOR_REEMBOLSADO_stationary"] else [])
    }

    /** `_apply_stationarity_transformations`: a stationary series is left as it is; otherwise
        the stationary column is set to the first difference and then overwritten by the log of
        the amounts, which is tested again. No other column and no row changes. */
    method ApplyStationarityTransformations(adf: seq<Derived> -> AdfResult) returns (verdict: Verdict)
      requires Valid()
      modifies this
      ensures Valid()
      ensures verdict == AlreadyStationary <==> IsStationary(adf(AmountSeries(old(rows))), Threshold)
      ensures verdict == AlreadyStationary ==> rows == old(rows) && hasStationary == old(hasStationary)
      ensures verdict != AlreadyStationary ==>
        && hasStationary
        && rows == WithStationary(old(rows), LogColumn(old(rows)))
        && (verdict == MadeStationary <==> IsStationary(adf(LogColumn(old(rows))), Threshold))
      ensures |rows| == |old(rows)|
      ensures forall i :: 0 <= i < |rows| ==>
        rows[i].data == old(rows)[i].data && rows[i].valor == old(rows)[i].valor && rows[i].count == old(rows)[i].count
    {
      if IsStationary(adf(AmountSeries(rows)), Threshold) {
        return AlreadyStationary;
      }
      var original := rows;
      rows := WithStationary(rows, DiffColumn(rows));
      hasStationary := true;
      assert LogColumn(rows) == LogColumn(original);
      rows := WithStationary(rows, LogColumn(rows));
      assert rows == WithStationary(original, LogColumn(original));
      assert StationarySeries(rows) == LogColumn(original);
      if IsStationary(adf(StationarySeries(rows)), Threshold) {
        verdict := MadeStationary;
      } else {
        verdict := StillNotStationary;
      }
    }

    /** `sort_values("DATA")`: a new frame with the rows ordered by day. */
    method SortValues() returns (sorted: DailyFrame)
      requires Valid()
      ensures fresh(sorted)
      ensures sorted.rows == SortByDate(rows) && sorted.hasStationary == hasStationary
      ensures sorted.Valid()
    {
      SortByDateColumn(rows, hasStationary);
      sorted := new DailyFrame(SortByDate(rows), hasStationary);
    }
  }

  /** Sorting moves rows without changing them, so it keeps the stationary column whole. */
  lemma SortByDateColumn(g: seq<DailyRow>, has: bool)
    requires StationaryColumn(g, has)
    ensures StationaryColumn(SortByDate(g), has)
  {
    var s := SortByDate(g);
    SortByDateSpec(g);
    forall i | 0 <= i < |s| ensures s[i].stationary.Some? <==> has {
      assert s[i] in multiset(g);
    }
  }

  /** Rows ordered by day, equal days in any order. */
  predicate SortedByDate(s: seq<DailyRow>)
  {
    forall i, j :: 0 <= i < j < |s| ==> !Before(s[j].data, s[i].data)
  }

  /** Puts a row before the first row that is not earlier than it. */
  function InsertByDate(x: DailyRow, s: seq<DailyRow>): (r: seq<DailyRow>)
    ensures |r| == |s| + 1
    decreases |s|
  {
    if s == [] || !Before(s[0].data, x.data) then [x] + s
    else [s[0]] + InsertByDate(x, s[1..])
  }

  /** Insertion sort by day. */
  function SortByDate(g: seq<DailyRow>): (r: seq<DailyRow>)
    ensures |r| == |g|
    decreases |g|
  {
    if g == [] then [] else InsertByDate(g[0], SortByDate(g[1..]))
  }

  /** Inserting adds exactly the one row. */
  lemma {:induction false} InsertByDateMultiset(x: DailyRow, s: seq<DailyRow>)
    ensures multiset(InsertByDate(x, s)) == multiset(s) + multiset{x}
    decreases |s|
  {
    if s != [] && Before(s[0].data, x.data) {
      InsertByDateMultiset(x, s[1..]);
      assert s == [s[0]] + s[1..];
    }
  }

  /** No row of `s` falls before the day `d`. */
  predicate NoneBefore(s: seq<DailyRow>, d: Date)
  {
    forall k :: 0 <= k < |s| ==> !Before(s[k].data, d)
  }

  /** Inserting a row not before `d` among rows not before `d` keeps that bound. */
  lemma {:induction false} InsertByDateBound(x: DailyRow, s: seq<DailyRow>, d: Date)
    requires NoneBefore(s, d) && !Before(x.data, d)
    ensures NoneBefore(InsertByDate(x, s), d)
    decreases |s|
  {
    if s != [] && Before(s[0].data, x.data) {
      InsertByDateBound(x, s[1..], d);
    }
  }

  /** Inserting into a sorted sequence keeps it sorted. */
  lemma {:induction false} InsertByDateSorted(x: DailyRow, s: seq<DailyRow>)
    requires SortedByDate(s)
    ensures SortedByDate(InsertByDate(x, s))
    decreases |s|
  {
    if s == [] || !Before(s[0].data, x.data) {
      var r := [x] + s;
      forall i, j | 0 <= i < j < |r| ensures !Before(r[j].data, r[i].data) {
        if i == 0 && j > 1 {
          BeforeTotal(s[0].data, x.data);
          BeforeTotal(s[0].data, s[j - 1].data);
          if Before(s[j - 1].data, x.data) {
            BeforeTransitive(s[0].data, s[j - 1].data, x.data);
          }
        }
      }
    } else {
      var t := InsertByDate(x, s[1..]);
      InsertByDateSorted(x, s[1..]);
      BeforeTotal(s[0].data, x.data);
      assert NoneBefore(s[1..], s[0].data);
      InsertByDateBound(x, s[1..], s[0].data);
      var r := [s[0]] + t;
      forall i, j | 0 <= i < j < |r| ensures !Before(r[j].data, r[i].data) {
        if i > 0 {
          assert r[i] == t[i - 1] && r[j] == t[j - 1];
        }
      }
    }
  }

  /** Sorting keeps the rows, in some order, and orders them by day. */
  lemma {:induction false} SortByDateSpec(g: seq<DailyRow>)
    ensures SortedByDate(SortByDate(g))
    ensures multiset(SortByDate(g)) == multiset(g)
    decreases |g|
  {
    if g != [] {
      SortByDateSpec(g[1..]);
      InsertByDateSorted(g[0], SortByDate(g[1..]));
      InsertByDateMultiset(g[0], SortByDate(g[1..]));
      assert g == [g[0]] + g[1..];
    }
  }

  /** A series already in ascending order is left as it is by the sort. */
  lemma {:induction false} SortOfAscending(g: seq<DailyRow>)
    requires Ascending(g)
    ensures SortByDate(g) == g
    decreases |g|
  {
    if g != [] {
      SortOfAscending(g[1..]);
      if |g| > 1 {
        BeforeTotal(g[1].data, g[0].data);
      }
      assert g == [g[0]] + g[1..];
    }
  }

  /** Setting the stationary column keeps the days, so it keeps the order. */
  lemma WithStationaryAscending(g: seq<DailyRow>, col: seq<Derived>)
    requires |col| == |g| && Ascending(g)
    ensures Ascending(WithStationary(g, col))
  {
  }

  /** `forecasting_timeseries_preparation`: parse the dates in place, group by day, apply the
      stationarity transformations and sort by day. A DATA text that is not a day makes it
      raise before anything else changes. */
  method PrepareForecastingSeries(data: ExpenseFrame, adf: seq<Derived> -> AdfResult)
    returns (r: Result<DailyFrame, PrepError>)
    modifies data
    ensures r.Ok? <==> ConvertAll(old(data.rows)).Ok?
    ensures r.Err? ==> data.rows == old(data.rows) && r.error == ConvertAll(old(data.rows)).error
    ensures r.Ok? ==> data.rows == ConvertAll(old(data.rows)).value && fresh(r.value) && r.value.Valid()
    ensures r.Ok? ==>
      var g := GroupByDate(data.rows);
      var out := r.value.rows;
      && Ascending(out)
      && |out| == |g|
      && (forall i :: 0 <= i < |g| ==>
            out[i].data == g[i].data && out[i].valor == g[i].valor && out[i].count == g[i].count)
      && (r.value.hasStationary <==> !IsStationary(adf(AmountSeries(g)), Threshold))
      && (forall i :: 0 <= i < |g| ==>
            out[i].stationary == (if r.value.hasStationary then Some(LogOf(g[i].valor)) else None))
  {
    var err := data.ConvertDates();
    if err.Some? {
      return Err(err.value);
    }
    var g := GroupByDate(data.rows);
    GroupByDateTable(data.rows);
    var daily := new DailyFrame(g, false);
    var verdict := daily.ApplyStationarityTransformations(adf);
    if verdict != AlreadyStationary {
      WithStationaryAscending(g, LogColumn(g));
    }
    SortOfAscending(daily.rows);
    var sorted := daily.SortValues();
    r := Ok(sorted);
  }
}
