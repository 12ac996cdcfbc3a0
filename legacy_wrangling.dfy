/** The older cleaning step (`format_data` in data_wrangling.py): coerce every column to its
    type, count and drop the duplicate rows, then count and drop the rows whose expense date
    does not fall in the row's ANO year. */
module LegacyWrangling {
  import opened Basics
  import opened Lexical
  import opened Dates
  import opened Frames
  import opened Records
  import DataWrangling

  /** A row after the coercions: ANO, MES and VALOR_REEMBOLSADO are numbers or NaN, DATA a day
      or NaT, and every other column is text (a missing cell has become "nan"). */
  datatype LegacyRecord = LegacyRecord(
    ano: Option<real>,
    mes: Option<real>,
    senador: string,
    tipoDespesa: string,
    cnpjCpf: string,
    fornecedor: string,
    documento: string,
    data: Option<Date>,
    detalhamento: string,
    valorReembolsado: Option<real>,
    codDocumento: string)

  /** `pd.to_numeric(errors="coerce")` on one cell. */
  function ToNumeric(cell: Option<string>): (r: Option<real>)
    ensures r.Some? ==> cell.Some?
    ensures r.Some? && r.value < 0.0 ==> |cell.value| > 0 && cell.value[0] == '-'
  {
    match cell
    case None => None
    case Some(t) => ParseNumber(t)
  }

  /** `astype(str)`: a missing cell becomes the text "nan". */
  function AsStr(cell: Option<string>): (s: string)
    ensures cell.Some? ==> s == cell.value
    ensures cell.None? ==> s == "nan"
  {
    match cell
    case None => "nan"
    case Some(t) => t
  }

  /** VALOR_REEMBOLSADO: commas become dots, then `to_numeric(errors="coerce")`. */
  function CoerceAmount(cell: Option<string>): (r: Option<real>)
    ensures r.Some? ==> cell.Some?
  {
    match cell
    case None => None
    case Some(t) => ParseNumber(ReplaceComma(t))
  }

  /** The eleven column assignments, applied to one row. */
  function Coerce(r: RawRecord): (c: LegacyRecord)
    ensures c.data.Some? ==> r.data.Some? && IsTimestampDay(c.data.value)
    ensures c.valorReembolsado.Some? ==> r.valorReembolsado.Some?
  {
    LegacyRecord(ToNumeric(r.ano), ToNumeric(r.mes), AsStr(r.senador), AsStr(r.tipoDespesa),
                 AsStr(r.cnpjCpf), AsStr(r.fornecedor), AsStr(r.documento), DataWrangling.ToDate(r.data),
                 AsStr(r.detalhamento), CoerceAmount(r.valorReembolsado), AsStr(r.codDocumento))
  }

  function CoerceAll(rows: seq<RawRecord>): (r: seq<LegacyRecord>)
    ensures |r| == |rows| && forall i :: 0 <= i < |rows| ==> r[i] == Coerce(rows[i])
  {
    seq(|rows|, i requires 0 <= i < |rows| => Coerce(rows[i]))
  }

  /** Any integer Python writes in ANO or MES is read back as that integer. */
  lemma ToNumericOfInt(i: int)
    ensures ToNumeric(Some(IntText(i))) == Some(i as real)
  {
    ParseNumberOfInt(i, IntText(i));
  }

  /** Brazilian "whole,cc" amounts are read as whole + cc/100. */
  lemma CoerceLocaleAmount(text: string, whole: string, cents: string)
    requires AllDigits(whole) && AllDigits(cents) && |cents| == 2
    requires text == whole + "," + cents
    ensures CoerceAmount(Some(text)) == Some(DigitsValue(whole) as real + DigitsValue(cents) as real / 100.0)
  {
    assert forall i :: 0 <= i < |whole| ==> IsDigit(whole[i]);
    assert forall i :: 0 <= i < |cents| ==> IsDigit(cents[i]);
    ReplaceDecimalComma(whole, cents);
    var u := ReplaceComma(text);
    ParseCentsText(u, whole, cents);
    UnsignedNumber(u);
  }

  /** A leading minus sign negates the amount. */
  lemma CoerceNegativeAmount(text: string, negated: string, v: real)
    requires CoerceAmount(Some(text)) == Some(v) && |text| > 0 && IsDigit(text[0])
    requires negated == "-" + text
    ensures CoerceAmount(Some(negated)) == Some(-v)
  {
    var u := ReplaceComma(text);
    ReplaceCommaAt(text, 0);
    UnsignedNumber(u);
    ReplaceCommaAfterSign(text, negated);
    ParseNegated(u, ReplaceComma(negated));
  }

  /** Text the coercion cannot read becomes NaN instead of raising: a currency sign is not
      removed here, so "R$ 10,00" has no value. */
  lemma CurrencyAmountIsNaN(t: string)
    requires t == "R$ 10,00"
    ensures CoerceAmount(Some(t)) == None
  {
    var u := ReplaceComma(t);
    assert u == "R$ 10" + "." + "00" by {
      assert t == "R$ 10" + "," + "00";
      ReplaceDecimalComma("R$ 10", "00");
    }
    IndexOfAfter("R$ 10", '.', "00");
    assert u[..5][0] == 'R';
  }

  /** An amount with a thousands separator has two dots once its comma is replaced, so
      `to_numeric` turns it into NaN; the step does not raise. */
  lemma ThousandsSeparatorIsNaN(t: string)
    requires t == "1.234,56"
    ensures CoerceAmount(Some(t)) == None
  {
    var u := ReplaceComma(t);
    assert u == "1.234" + "." + "56" by {
      assert t == "1.234" + "," + "56";
      ReplaceDecimalComma("1.234", "56");
    }
    TwoDotsRejected(u, 1, 5);
    UnsignedNumber(u);
  }

  /** A missing text cell and the text "nan" coerce to the same value, so rows that differ only
      there are counted and dropped as duplicates. */
  lemma CoercionMergesMissingAndNan(r: RawRecord)
    requires r.senador.None?
    ensures Coerce(r) == Coerce(r.(senador := Some("nan")))
    ensures r != r.(senador := Some("nan"))
  {
  }

  /** strptime alone accepts a day and a month written with one digit, which the newer cleaning
      rejects: the two versions disagree on text such as "1/2/2021". */
  lemma ShortDateAccepted(s: string, day: char, month: char, year: string)
    requires IsDigit(day) && day != '0' && IsDigit(month) && month != '0'
    requires |year| == 4 && AllDigits(year)
    requires IsTimestampDay(Date(DigitsValue(year), DigitValue(month), DigitValue(day)))
    requires s == [day] + "/" + [month] + "/" + year
    ensures DataWrangling.ToDate(Some(s)) == Some(Date(DigitsValue(year), DigitValue(month), DigitValue(day)))
    ensures DataWrangling.CleanDate(Some(s)) == None
  {
    ParseDayFirstSplit([day], [month], year);
    assert s[2] == month;
  }

  /** The year test of the older step: DATA is a day and ANO a number equal to its year.
      A NaT date or a NaN year never compares equal, so such rows fail the test. */
  predicate YearMatches(r: LegacyRecord)
  {
    r.data.Some? && r.ano.Some? && r.data.value.year as real == r.ano.value
  }

  /** `data['DATA'].dt.year != data['ANO']`, row by row. */
  function WrongYearMask(rows: seq<LegacyRecord>): (m: seq<bool>)
    ensures |m| == |rows| && forall i :: 0 <= i < |rows| ==> (m[i] <==> !YearMatches(rows[i]))
  {
    seq(|rows|, i requires 0 <= i < |rows| => !YearMatches(rows[i]))
  }

  /** The rows left once the flagged rows are removed by position. */
  function KeepMatchingYear(rows: seq<LegacyRecord>): (r: seq<LegacyRecord>)
    ensures |r| <= |rows|
  {
    Without(rows, WrongYearMask(rows))
  }

  /** Removing the wrong-year rows keeps exactly the rows whose date falls in their year, in
      their order, and removes as many rows as the mask flags. */
  lemma KeepMatchingYearSpec(rows: seq<LegacyRecord>)
    ensures forall x :: x in KeepMatchingYear(rows) <==> x in rows && YearMatches(x)
    ensures IsSubsequence(KeepMatchingYear(rows), rows)
    ensures |KeepMatchingYear(rows)| == |rows| - CountTrue(WrongYearMask(rows))
  {
    var mask := WrongYearMask(rows);
    forall x | x in KeepMatchingYear(rows) ensures x in rows && YearMatches(x) {
      WithoutMember(rows, mask, x);
    }
    forall x | x in rows && YearMatches(x) ensures x in KeepMatchingYear(rows) {
      var i :| 0 <= i < |rows| && rows[i] == x;
      WithoutKeeps(rows, mask, i);
    }
    WithoutIsSubsequence(rows, mask);
  }

  /** What the older step leaves: every coerced row whose date is in its year, once, and
      nothing else. */
  lemma LegacyOutputSpec(raw: seq<RawRecord>)
    ensures var out := KeepMatchingYear(Dedup(CoerceAll(raw)));
      && NoDuplicates(out)
      && forall x :: x in out <==> x in CoerceAll(raw) && YearMatches(x)
  {
    var deduped := Dedup(CoerceAll(raw));
    DedupNoDuplicates(CoerceAll(raw));
    DedupKeepsEveryValue(CoerceAll(raw));
    WithoutDistinct(deduped, WrongYearMask(deduped));
    KeepMatchingYearSpec(deduped);
  }

  /** `format_data` of the older version. The column assignments build the coerced rows (the
      frame's column types change, so the model holds them in a new frame); duplicates are
      counted and dropped in place, then the wrong-year rows are counted and dropped in place.
      The two counts are what the step prints. */
  method FormatData(raw: seq<RawRecord>) returns (data: Frame<LegacyRecord>, duplicates: nat, wrongYear: nat)
    ensures fresh(data)
    ensures duplicates == |raw| - |Dedup(CoerceAll(raw))|
    ensures wrongYear == CountTrue(WrongYearMask(Dedup(CoerceAll(raw))))
    ensures data.rows == KeepMatchingYear(Dedup(CoerceAll(raw)))
  {
    data := new Frame(CoerceAll(raw));
    duplicates := data.CountDuplicates();
    data.DropDuplicates();
    var wrong := WrongYearMask(data.rows);
    wrongYear := CountTrue(wrong);
    data.DropRows(wrong);
  }

  /** A row together with its index label. After the per-file frames are concatenated without
      renumbering, each file's rows keep the labels 0, 1, 2, ... of that file. */
  datatype Labelled<T> = Labelled(index: int, row: T)

  /** The labels of the flagged rows (`wrong_date.index`). */
  function FlaggedLabels<T>(rows: seq<Labelled<T>>, drop: seq<bool>): set<int>
    requires |drop| == |rows|
  {
    set i | 0 <= i < |rows| && drop[i] :: rows[i].index
  }

  /** The rows whose label is not in `gone`. */
  function KeepLabelsNotIn<T>(rows: seq<Labelled<T>>, gone: set<int>): (r: seq<Labelled<T>>)
    ensures forall x :: x in r ==> x in rows && x.index !in gone
    ensures forall i :: 0 <= i < |rows| && rows[i].index !in gone ==> rows[i] in r
    decreases |rows|
  {
    if rows == [] then []
    else
      var n := |rows| - 1;
      KeepLabelsNotIn(rows[..n], gone) + (if rows[n].index in gone then [] else [rows[n]])
  }

  /** `data.drop(wrong_date.index, inplace=True)` as written: every row carrying a flagged
      row's label is removed, whichever file it came from. */
  function DropByLabel<T>(rows: seq<Labelled<T>>, drop: seq<bool>): (r: seq<Labelled<T>>)
    requires |drop| == |rows|
    ensures forall i :: 0 <= i < |rows| && drop[i] ==> rows[i] !in r
    ensures forall x :: x in r ==> x in rows && x.index !in FlaggedLabels(rows, drop)
    ensures forall i :: 0 <= i < |rows| && rows[i].index !in FlaggedLabels(rows, drop) ==> rows[i] in r
  {
    KeepLabelsNotIn(rows, FlaggedLabels(rows, drop))
  }

  /** A matching row of a second file is removed together with a wrong-year row of the first
      file that has the same label, while the positional removal keeps it. */
  lemma LabelDropLosesMatchingRow(bad: LegacyRecord, good: LegacyRecord)
    requires !YearMatches(bad) && YearMatches(good)
    ensures var rows := [Labelled(0, bad), Labelled(0, good)];
            var mask := WrongYearMask([bad, good]);
            && DropByLabel(rows, mask) == []
            && Without(rows, mask) == [Labelled(0, good)]
  {
    var rows := [Labelled(0, bad), Labelled(0, good)];
    var mask := WrongYearMask([bad, good]);
    assert mask == [true, false];
    var gone := FlaggedLabels(rows, mask);
    assert mask[0] && rows[0].index == 0;
    assert 0 in gone;
    var first := rows[..1];
    assert first == [Labelled(0, bad)] && first[..0] == [];
    assert KeepLabelsNotIn(first, gone) == KeepLabelsNotIn(first[..0], gone);
    assert KeepLabelsNotIn(rows, gone) == KeepLabelsNotIn(first, gone);
    WithoutPrefixStep(rows, mask, 0);
    WithoutPrefixStep(rows, mask, 1);
    assert rows[..0] == [] && mask[..0] == [] && rows[..2] == rows && mask[..2] == mask;
  }

  /** While the flags agree with membership of the label in `gone`, keeping the labels not in
      `gone` is the positional removal. */
  lemma {:induction false} KeepLabelsNotInPositional<T>(rows: seq<Labelled<T>>, drop: seq<bool>, gone: set<int>)
    requires |drop| == |rows|
    requires forall i :: 0 <= i < |rows| ==> (rows[i].index in gone <==> drop[i])
    ensures KeepLabelsNotIn(rows, gone) == Without(rows, drop)
    decreases |rows|
  {
    if rows != [] {
      var n := |rows| - 1;
      KeepLabelsNotInPositional(rows[..n], drop[..n], gone);
    }
  }

  /** With labels that are unique across the frame, dropping by label is the positional
      removal the model uses. */
  lemma DropByLabelWhenUnique<T>(rows: seq<Labelled<T>>, drop: seq<bool>)
    requires |drop| == |rows|
    requires forall i, j :: 0 <= i < j < |rows| ==> rows[i].index != rows[j].index
    ensures DropByLabel(rows, drop) == Without(rows, drop)
  {
    var gone := FlaggedLabels(rows, drop);
    forall i | 0 <= i < |rows| ensures rows[i].index in gone <==> drop[i] {
      if rows[i].index in gone {
        var j :| 0 <= j < |rows| && drop[j] && rows[j].index == rows[i].index;
        assert j == i;
      }
    }
    KeepLabelsNotInPositional(rows, drop, gone);
  }
}
