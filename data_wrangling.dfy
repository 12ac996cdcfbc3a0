/** The cleaning step of the CEAPS pipeline (`format_data` and `ceaps_data_wrangling` in
    src/data_wrangling.py): drop duplicate rows in place, fill the missing payee and detail
    cells, turn the reimbursed amount into a number and the expense date into a day. */
module DataWrangling {
  import opened Basics
  import opened Lexical
  import opened Dates
  import opened Frames
  import opened Records

  /** The sentinels written into missing cells. */
  const NotIdentified: string := "N\U{E3}o Identificado"
  const NotIdentifiedDocument: string := "N\U{E3}o identificado"
  const NoDetail: string := "Sem detalhamento"

  /** `fillna` on one cell: a missing cell gets the sentinel, a present one is kept. */
  function FillWith(cell: Option<string>, sentinel: string): (r: Option<string>)
    ensures r.Some?
    ensures cell.Some? ==> r == cell
    ensures cell.None? ==> r == Some(sentinel)
  {
    if cell.None? then Some(sentinel) else cell
  }

  /** The two `fillna` calls: CNPJ_CPF, FORNECEDOR and DOCUMENTO, then DETALHAMENTO. */
  function FillMissing<D, V>(r: Row<D, V>): (f: Row<D, V>)
    ensures f.cnpjCpf.Some? && f.fornecedor.Some? && f.documento.Some? && f.detalhamento.Some?
  {
    r.(cnpjCpf := FillWith(r.cnpjCpf, NotIdentified),
       fornecedor := FillWith(r.fornecedor, NotIdentified),
       documento := FillWith(r.documento, NotIdentifiedDocument),
       detalhamento := FillWith(r.detalhamento, NoDetail))
  }

  /** Filling touches only the four filled columns, only where they are missing, never
      overwrites a present value, and leaves nothing to fill a second time. */
  lemma FillMissingSpec<D, V>(r: Row<D, V>)
    ensures var f := FillMissing(r);
      && f.cnpjCpf.Some? && f.fornecedor.Some? && f.documento.Some? && f.detalhamento.Some?
      && (r.cnpjCpf.Some? ==> f.cnpjCpf == r.cnpjCpf)
      && (r.fornecedor.Some? ==> f.fornecedor == r.fornecedor)
      && (r.documento.Some? ==> f.documento == r.documento)
      && (r.detalhamento.Some? ==> f.detalhamento == r.detalhamento)
      && (r.cnpjCpf.None? ==> f.cnpjCpf == Some(NotIdentified))
      && (r.fornecedor.None? ==> f.fornecedor == Some(NotIdentified))
      && (r.documento.None? ==> f.documento == Some(NotIdentifiedDocument))
      && (r.detalhamento.None? ==> f.detalhamento == Some(NoDetail))
      && f.ano == r.ano && f.mes == r.mes && f.senador == r.senador
      && f.tipoDespesa == r.tipoDespesa && f.codDocumento == r.codDocumento
      && f.data == r.data && f.valorReembolsado == r.valorReembolsado
      && FillMissing(f) == f
  {
  }

  /** The characters the amount cleaning keeps. */
  predicate IsAmountChar(c: char)
  {
    IsDigit(c) || c == '.'
  }

  /** `str.replace("[^0-9.]", "", regex=True)`: deletes every character but digits and dots. */
  function KeepAmountChars(s: string): (r: string)
    ensures |r| <= |s|
    decreases |s|
  {
    if s == [] then ""
    else KeepAmountChars(s[..|s| - 1]) + (if IsAmountChar(s[|s| - 1]) then [s[|s| - 1]] else "")
  }

  /** The two replacements on VALOR_REEMBOLSADO: commas become dots, then everything that is
      not a digit or a dot is deleted. */
  function CleanAmountText(s: string): (r: string)
    ensures |r| <= |s|
  {
    KeepAmountChars(ReplaceComma(s))
  }

  /** Only digits and dots survive the cleaning. */
  lemma {:induction false} KeepAmountCharsOnly(s: string)
    ensures forall i :: 0 <= i < |KeepAmountChars(s)| ==> IsAmountChar(KeepAmountChars(s)[i])
    decreases |s|
  {
    if s != [] {
      KeepAmountCharsOnly(s[..|s| - 1]);
    }
  }

  /** Text already made of digits and dots is left as it is. */
  lemma {:induction false} KeepAmountCharsFixed(s: string)
    requires forall i :: 0 <= i < |s| ==> IsAmountChar(s[i])
    ensures KeepAmountChars(s) == s
    decreases |s|
  {
    if s != [] {
      KeepAmountCharsFixed(s[..|s| - 1]);
      assert s == s[..|s| - 1] + [s[|s| - 1]];
    }
  }

  /** Deleting characters commutes with appending. */
  lemma {:induction false} KeepAmountCharsAppend(a: string, b: string)
    ensures KeepAmountChars(a + b) == KeepAmountChars(a) + KeepAmountChars(b)
    decreases |b|
  {
    if b == [] {
      assert a + b == a;
    } else {
      var n := |b| - 1;
      KeepAmountCharsAppend(a, b[..n]);
      assert (a + b)[..|a + b| - 1] == a + b[..n];
    }
  }

  /** The cleaned amount holds only digits and dots: no comma, letter, space or currency sign. */
  lemma CleanAmountTextCharset(s: string)
    ensures forall i :: 0 <= i < |CleanAmountText(s)| ==> IsAmountChar(CleanAmountText(s)[i])
  {
    KeepAmountCharsOnly(ReplaceComma(s));
  }

  /** Cleaning an amount twice is the same as cleaning it once. */
  lemma CleanAmountTextIdempotent(s: string)
    ensures CleanAmountText(CleanAmountText(s)) == CleanAmountText(s)
  {
    var c := CleanAmountText(s);
    CleanAmountTextCharset(s);
    ReplaceCommaNoComma(c);
    KeepAmountCharsFixed(c);
  }

  /** The characters the cleaning keeps or turns into a kept dot. */
  function KeepAmountOrComma(s: string): string
    decreases |s|
  {
    if s == [] then ""
    else
      var c := s[|s| - 1];
      KeepAmountOrComma(s[..|s| - 1]) + (if IsAmountChar(c) || c == ',' then [c] else "")
  }

  /** Every comma of the input appears as a dot at the same place among the kept characters:
      cleaning is keeping digits, dots and commas, then turning the commas into dots. */
  lemma {:induction false} CleanAmountCommaPositions(s: string)
    ensures CleanAmountText(s) == ReplaceComma(KeepAmountOrComma(s))
    decreases |s|
  {
    if s != [] {
      var n := |s| - 1;
      var c := s[n];
      CleanAmountCommaPositions(s[..n]);
      assert s == s[..n] + [c];
      ReplaceCommaAppend(s[..n], [c]);
      KeepAmountCharsAppend(ReplaceComma(s[..n]), ReplaceComma([c]));
      assert KeepAmountChars(ReplaceComma([c])) == (if IsAmountChar(c) || c == ',' then ReplaceComma([c]) else "") by {
        assert ReplaceComma([c])[..0] == [];
      }
      ReplaceCommaAppend(KeepAmountOrComma(s[..n]), if IsAmountChar(c) || c == ',' then [c] else "");
    }
  }

  /** "whole.cc" text is made of digits and a dot only, so the cleaning keeps all of it. */
  lemma KeepCentsText(w: string, c: string)
    requires AllDigits(w) && AllDigits(c)
    ensures KeepAmountChars(w + "." + c) == w + "." + c
  {
    var t := w + "." + c;
    forall i | 0 <= i < |t| ensures IsAmountChar(t[i]) {
      if i < |w| { assert t[i] == w[i]; }
      else if i > |w| { assert t[i] == c[i - |w| - 1]; }
    }
    KeepAmountCharsFixed(t);
  }

  /** The cleaning turns "whole,cc" behind a prefix without digits, dots or commas into
      "whole.cc". */
  lemma CleanLocaleText(prefix: string, whole: string, cents: string)
    requires AllDigits(whole) && AllDigits(cents)
    requires forall i :: 0 <= i < |prefix| ==> !IsAmountChar(prefix[i]) && prefix[i] != ','
    ensures CleanAmountText(prefix + whole + "," + cents) == whole + "." + cents
  {
    assert forall i :: 0 <= i < |whole| ==> IsDigit(whole[i]);
    assert forall i :: 0 <= i < |cents| ==> IsDigit(cents[i]);
    assert prefix + whole + "," + cents == (prefix + whole) + "," + cents;
    assert forall i :: 0 <= i < |prefix + whole| ==> (prefix + whole)[i] != ',';
    ReplaceDecimalComma(prefix + whole, cents);
    assert (prefix + whole) + "." + cents == prefix + (whole + "." + cents);
    KeepAmountCharsAppend(prefix, whole + "." + cents);
    KeepAmountCharsDropsAll(prefix);
    KeepCentsText(whole, cents);
  }

  /** Brazilian "whole,cc" amounts, behind any prefix without digits, dots or commas (such as
      "R$ "), are read as whole + cc/100. */
  lemma CleanLocaleAmount(text: string, prefix: string, whole: string, cents: string)
    requires AllDigits(whole) && AllDigits(cents) && |cents| == 2
    requires forall i :: 0 <= i < |prefix| ==> !IsAmountChar(prefix[i]) && prefix[i] != ','
    requires text == prefix + whole + "," + cents
    ensures ParseDecimal(CleanAmountText(text))
         == Some(DigitsValue(whole) as real + DigitsValue(cents) as real / 100.0)
  {
    CleanLocaleText(prefix, whole, cents);
    ParseCentsText(CleanAmountText(text), whole, cents);
  }

  /** Text without digits or dots is deleted entirely. */
  lemma {:induction false} KeepAmountCharsDropsAll(s: string)
    requires forall i :: 0 <= i < |s| ==> !IsAmountChar(s[i])
    ensures KeepAmountChars(s) == ""
    decreases |s|
  {
    if s != [] {
      KeepAmountCharsDropsAll(s[..|s| - 1]);
    }
  }

  /** Why the float cast failed: the cleaned text of the first amount that is not a number. */
  datatype FormatError = NotAFloat(text: string)

  /** `astype("float64")` on one cleaned amount: NaN stays NaN, text must be a decimal. */
  function AmountToFloat(cell: Option<string>): (r: Result<Option<real>, FormatError>)
    ensures r.Ok? ==> (r.value.Some? <==> cell.Some?)
    ensures r.Err? ==> cell == Some(r.error.text) && ParseDecimal(cell.value).None?
  {
    match cell
    case None => Ok(None)
    case Some(t) =>
      match ParseDecimal(t)
      case Some(v) => Ok(Some(v))
      case None => Err(NotAFloat(t))
  }

  /** The cast of the whole VALOR_REEMBOLSADO column: a single cell that is not a number makes
      the call raise, and no row is converted. */
  function AmountsToFloat<D>(rows: seq<Row<D, Option<string>>>): (r: Result<seq<Row<D, Option<real>>>, FormatError>)
    ensures r.Ok? <==> forall i :: 0 <= i < |rows| ==> AmountToFloat(rows[i].valorReembolsado).Ok?
    ensures r.Ok? ==> |r.value| == |rows|
    ensures r.Ok? ==> forall i :: 0 <= i < |rows| ==>
      r.value[i] == WithAmount(rows[i], AmountToFloat(rows[i].valorReembolsado).value)
    ensures r.Err? ==> exists i :: 0 <= i < |rows| && AmountToFloat(rows[i].valorReembolsado) == Err(r.error)
    decreases |rows|
  {
    if rows == [] then Ok([])
    else
      var n := |rows| - 1;
      match AmountsToFloat(rows[..n])
      case Err(e) => Err(e)
      case Ok(prefix) =>
        match AmountToFloat(rows[n].valorReembolsado)
        case Err(e) => Err(e)
        case Ok(v) => Ok(prefix + [WithAmount(rows[n], v)])
  }

  /** The date pattern `\b(0[1-9]|[12][0-9]|3[01])/(0[1-9]|1[0-2])/[0-9]{4}\b` applied with
      `re.match`: a day 01-31 and a month 01-12 in two digits each, a four-digit year, and no
      word character right after the year. */
  predicate MatchesDatePattern(s: string)
    ensures MatchesDatePattern(s) ==> |s| >= 10 && s[2] == '/' && s[5] == '/'
  {
    && |s| >= 10
    && AllDigits(s[..2]) && 1 <= DigitsValue(s[..2]) <= 31 && s[2] == '/'
    && AllDigits(s[3..5]) && 1 <= DigitsValue(s[3..5]) <= 12 && s[5] == '/'
    && AllDigits(s[6..10])
    && (|s| == 10 || !IsWordChar(s[10]))
  }

  /** The `apply` on DATA: a value is kept when its text matches the pattern, otherwise it
      becomes None. A missing value's text is "nan", which never matches. */
  function FilterDate(cell: Option<string>): (r: Option<string>)
    ensures r.Some? <==> cell.Some? && MatchesDatePattern(cell.value)
    ensures r.Some? ==> r == cell
  {
    if cell.Some? && MatchesDatePattern(cell.value) then cell else None
  }

  /** `to_datetime(format="%d/%m/%Y", errors="coerce")` on one filtered value. */
  function ToDate(cell: Option<string>): (r: Option<Date>)
    ensures r.Some? ==> cell.Some? && IsTimestampDay(r.value)
  {
    match cell
    case None => None
    case Some(s) => ParseDayFirst(s)
  }

  /** The two DATA steps together. */
  function CleanDate(cell: Option<string>): (r: Option<Date>)
    ensures r.Some? ==> cell.Some? && IsTimestampDay(r.value)
  {
    ToDate(FilterDate(cell))
  }

  /** On text the pattern accepts, the day-first parse reads the three fixed-width fields:
      the text is a date only when nothing follows the year and the fields name a Timestamp day. */
  lemma ParseMatchingText(s: string)
    requires MatchesDatePattern(s)
    ensures ParseDayFirst(s)
         == var d := Date(DigitsValue(s[6..10]), DigitsValue(s[3..5]), DigitsValue(s[..2]));
            if |s| == 10 && IsTimestampDay(d) then Some(d) else None
  {
    var dayText, monthText, yearText := s[..2], s[3..5], s[6..];
    assert s == dayText + "/" + monthText + "/" + yearText;
    assert forall i :: 0 <= i < 2 ==> IsDigit(dayText[i]) && IsDigit(monthText[i]);
    ParseDayFirstSplit(dayText, monthText, yearText);
    assert DayToken(dayText) == Some(DigitsValue(s[..2]));
    assert MonthToken(monthText) == Some(DigitsValue(s[3..5]));
    if |s| == 10 {
      assert yearText == s[6..10];
    }
  }

  /** Every text the cleaning reads as a day is that day written "dd/mm/yyyy". */
  lemma CleanDateSound(s: string, d: Date)
    requires CleanDate(Some(s)) == Some(d)
    ensures IsTimestampDay(d) && s == FormatDayFirst(d)
  {
    assert MatchesDatePattern(s) && ParseDayFirst(s) == Some(d);
    ParseMatchingText(s);
    DayFirstJoin(s);
    FormatDayFirstOfFields(s[..2], s[3..5], s[6..], d);
  }

  /** Every Timestamp day written "dd/mm/yyyy" passes the pattern and is read back. */
  lemma CleanDateComplete(d: Date)
    requires IsTimestampDay(d)
    ensures CleanDate(Some(FormatDayFirst(d))) == Some(d)
  {
    TimestampYears(d);
    var dayText, monthText, yearText := PadLeft(d.day, 2), PadLeft(d.month, 2), PadLeft(d.year, 4);
    var s := FormatDayFirst(d);
    DayFirstPositions(dayText, monthText, yearText);
    assert MatchesDatePattern(s);
    ParseDayFirstRoundTrip(d);
  }

  /** A date survives the cleaning exactly when its text is that day written "dd/mm/yyyy",
      with leading zeros and nothing after it. */
  lemma CleanDateExact(s: string, d: Date)
    ensures CleanDate(Some(s)) == Some(d) <==> IsTimestampDay(d) && s == FormatDayFirst(d)
  {
    if CleanDate(Some(s)) == Some(d) {
      CleanDateSound(s, d);
    }
    if IsTimestampDay(d) && s == FormatDayFirst(d) {
      CleanDateComplete(d);
    }
  }

  /** Text whose day and month fields name no calendar day in its year never gives a date. */
  lemma NoCleanDate(s: string, day: int, month: int)
    requires |s| == 10 && AllDigits(s[..2]) && AllDigits(s[3..5]) && AllDigits(s[6..])
    requires DigitsValue(s[..2]) == day && DigitsValue(s[3..5]) == month
    requires 1 <= month <= 12 && day > DaysInMonth(DigitsValue(s[6..]), month)
    ensures CleanDate(Some(s)) == None
  {
    if MatchesDatePattern(s) {
      ParseMatchingText(s);
      assert s[6..10] == s[6..];
    }
  }

  /** The three fields of a ten-character text, one character at a time. */
  lemma TenCharFields(s: string)
    requires |s| == 10
    ensures s[..2] == [s[0], s[1]] && s[3..5] == [s[3], s[4]]
    ensures s[6..] == [s[6], s[7], s[8], s[9]] && s[6..10] == s[6..]
  {
  }

  /** A leap day of a leap year is kept. */
  lemma LeapDayKept(c: string)
    requires c == "29/02/2024"
    ensures CleanDate(Some(c)) == Some(Date(2024, 2, 29))
  {
    TenCharFields(c);
    TwoDigitsValue('2', '9');
    TwoDigitsValue('0', '2');
    FourDigitsValue('2', '0', '2', '4');
    assert c[..2] == ['2', '9'] && c[3..5] == ['0', '2'] && c[6..10] == ['2', '0', '2', '4'];
    assert MatchesDatePattern(c);
    ParseMatchingText(c);
    assert IsTimestampDay(Date(2024, 2, 29));
  }

  /** February 31st does not exist and becomes NaT. */
  lemma FebruaryThirtyFirstRejected(a: string)
    requires a == "31/02/2021"
    ensures CleanDate(Some(a)) == None
  {
    TenCharFields(a);
    TwoDigitsValue('3', '1');
    TwoDigitsValue('0', '2');
    FourDigitsValue('2', '0', '2', '1');
    assert a[..2] == ['3', '1'] && a[3..5] == ['0', '2'] && a[6..] == ['2', '0', '2', '1'];
    NoCleanDate(a, 31, 2);
  }

  /** February 29th of a common year does not exist and becomes NaT. */
  lemma CommonYearLeapDayRejected(b: string)
    requires b == "29/02/2023"
    ensures CleanDate(Some(b)) == None
  {
    TenCharFields(b);
    TwoDigitsValue('2', '9');
    TwoDigitsValue('0', '2');
    FourDigitsValue('2', '0', '2', '3');
    assert b[..2] == ['2', '9'] && b[3..5] == ['0', '2'] && b[6..] == ['2', '0', '2', '3'];
    NoCleanDate(b, 29, 2);
  }

  /** Day and month without their leading zeros, which strptime alone would accept, and a
      missing cell become NaT. */
  lemma ShortFieldsRejected()
    ensures CleanDate(Some("1/2/2021")) == None
    ensures CleanDate(Some("01/2/2021")) == None
    ensures CleanDate(None) == None
  {
    assert !MatchesDatePattern("1/2/2021");
    assert "01/2/2021"[5] != '/';
  }

  /** One row after the fills and the amount replacements, before the float cast. */
  function PrepareRow(r: RawRecord): RawRecord
  {
    var f := FillMissing(r);
    f.(valorReembolsado := if f.valorReembolsado.None? then None else Some(CleanAmountText(f.valorReembolsado.value)))
  }

  /** What `format_data` computes from the deduplicated rows: the frame, or the float cast's error. */
  function Normalize(rows: seq<RawRecord>): (r: Result<seq<Record>, FormatError>)
    ensures r.Ok? ==> |r.value| == |rows|
  {
    var prepared := seq(|rows|, i requires 0 <= i < |rows| => PrepareRow(rows[i]));
    match AmountsToFloat(prepared)
    case Err(e) => Err(e)
    case Ok(typed) => Ok(seq(|typed|, i requires 0 <= i < |typed| => WithDate(typed[i], CleanDate(typed[i].data))))
  }

  /** A missing amount is NaN; present text is a number once cleaned. */
  predicate AmountConvertible(cell: Option<string>)
  {
    cell.None? || ParseDecimal(CleanAmountText(cell.value)).Some?
  }

  /** The cleaning succeeds exactly when every amount is a number once cleaned. It then keeps
      every row, in order, with the four filled columns present and never overwritten, the
      other text columns as they were, the amount as the number its cleaned text writes, and
      the date as the day its text writes in strict "dd/mm/yyyy" form (NaT otherwise). */
  lemma NormalizeSpec(rows: seq<RawRecord>)
    ensures Normalize(rows).Ok? <==> forall i :: 0 <= i < |rows| ==> AmountConvertible(rows[i].valorReembolsado)
    ensures Normalize(rows).Ok? ==>
      var out := Normalize(rows).value;
      && |out| == |rows|
      && forall i :: 0 <= i < |rows| ==>
        && SameText(out[i], FillMissing(rows[i]))
        && out[i].cnpjCpf.Some? && out[i].fornecedor.Some? && out[i].documento.Some? && out[i].detalhamento.Some?
        && (rows[i].valorReembolsado.None? <==> out[i].valorReembolsado.None?)
        && (rows[i].valorReembolsado.Some? ==>
              out[i].valorReembolsado == ParseDecimal(CleanAmountText(rows[i].valorReembolsado.value)))
        && (forall d :: out[i].data == Some(d) <==> rows[i].data.Some? && IsTimestampDay(d) && rows[i].data.value == FormatDayFirst(d))
  {
    var prepared := seq(|rows|, i requires 0 <= i < |rows| => PrepareRow(rows[i]));
    assert forall i :: 0 <= i < |rows| ==>
      (AmountToFloat(prepared[i].valorReembolsado).Ok? <==> AmountConvertible(rows[i].valorReembolsado));
    if Normalize(rows).Ok? {
      var out := Normalize(rows).value;
      forall i, d | 0 <= i < |rows|
        ensures out[i].data == Some(d) <==> rows[i].data.Some? && IsTimestampDay(d) && rows[i].data.value == FormatDayFirst(d)
      {
        assert out[i].data == CleanDate(rows[i].data);
        if rows[i].data.Some? {
          CleanDateExact(rows[i].data.value, d);
        }
      }
    }
  }

  /** "1.234,56", with a thousands separator, is cleaned to "1.234.56". */
  lemma ThousandsSeparatorText(text: string, cleaned: string)
    requires text == "1.234,56" && cleaned == "1.234.56"
    ensures CleanAmountText(text) == cleaned
  {
    assert text == "1.234" + "," + "56";
    ReplaceDecimalComma("1.234", "56");
    assert ReplaceComma(text) == cleaned;
    assert forall i :: 0 <= i < |cleaned| ==> IsAmountChar(cleaned[i]);
    KeepAmountCharsFixed(cleaned);
  }

  /** A single amount that is not a number after cleaning, such as "1.234,56" (which becomes
      "1.234.56"), makes the whole cleaning fail. */
  lemma ThousandsSeparatorAborts(rows: seq<RawRecord>, i: nat, text: string)
    requires text == "1.234,56" && i < |rows| && rows[i].valorReembolsado == Some(text)
    ensures Normalize(rows).Err?
  {
    var cleaned := "1.234.56";
    ThousandsSeparatorText(text, cleaned);
    TwoDotsRejected(cleaned, 1, 5);
    NormalizeSpec(rows);
    assert !AmountConvertible(rows[i].valorReembolsado);
  }

  /** Cleaning can make distinct rows equal, so the result may hold repeated rows although the
      duplicates were dropped first: "10,00" and "10.00" both become 10. */
  lemma NormalizedRowsCanRepeat(r: RawRecord, r2: RawRecord, comma: string, dot: string)
    requires comma == "10,00" && dot == "10.00"
    requires r.valorReembolsado == Some(comma) && r2 == r.(valorReembolsado := Some(dot))
    ensures Dedup([r, r2]) == [r, r2]
    ensures Normalize([r, r2]).Ok? && Normalize([r, r2]).value[0] == Normalize([r, r2]).value[1]
  {
    var rows := [r, r2];
    assert r != r2;
    DedupOfDistinct(rows);
    TenReais(comma, dot);
    var p := PrepareRow(r);
    assert p.valorReembolsado == Some(dot);
    assert PrepareRow(r2) == p;
    var prepared := seq(|rows|, i requires 0 <= i < |rows| => PrepareRow(rows[i]));
    assert prepared == [p, p];
    assert AmountToFloat(p.valorReembolsado) == Ok(Some(10.0));
    assert AmountsToFloat(prepared).Ok?;
  }

  /** Ten reais written with a comma or with a dot is the same amount. */
  lemma TenReais(comma: string, dot: string)
    requires comma == "10,00" && dot == "10.00"
    ensures CleanAmountText(comma) == dot && CleanAmountText(dot) == dot
    ensures ParseDecimal(dot) == Some(10.0)
  {
    assert comma == "10" + "," + "00" && dot == "10" + "." + "00";
    assert AllDigits("10") && AllDigits("00");
    ReplaceDecimalComma("10", "00");
    assert forall i :: 0 <= i < |dot| ==> dot[i] != ',';
    ReplaceCommaNoComma(dot);
    KeepCentsText("10", "00");
    TenReaisValue(dot);
  }

  /** "10.00" is read as ten. */
  lemma TenReaisValue(dot: string)
    requires dot == "10.00"
    ensures ParseDecimal(dot) == Some(10.0)
  {
    IndexOfAfter("10", '.', "00");
    assert dot == "10" + ['.'] + "00";
    assert dot[..2] == "10" && dot[3..] == "00";
    TwoDigitsValue('1', '0');
    TwoDigitsValue('0', '0');
    assert Pow10(2) == 100;
  }

  /** Rows that agree once filled and their amount text cleaned come out of the cleaning equal. */
  lemma NormalizeSamePrepared(rows: seq<RawRecord>, i: nat, j: nat)
    requires i < |rows| && j < |rows| && PrepareRow(rows[i]) == PrepareRow(rows[j])
    requires Normalize(rows).Ok?
    ensures Normalize(rows).value[i] == Normalize(rows).value[j]
  {
  }

  /** `format_data`: drops the duplicate rows of the caller's frame in place, then returns the
      cleaned rows, or the error the float cast raises. */
  method FormatData(data: Frame<RawRecord>) returns (r: Result<seq<Record>, FormatError>)
    modifies data
    ensures data.rows == Dedup(old(data.rows))
    ensures r == Normalize(data.rows)
  {
    data.DropDuplicates();
    var rows := data.rows;
    var prepared := seq(|rows|, i requires 0 <= i < |rows| => PrepareRow(rows[i]));
    var typed := AmountsToFloat(prepared);
    if typed.Err? {
      return Err(typed.error);
    }
    var t := typed.value;
    r := Ok(seq(|t|, i requires 0 <= i < |t| => WithDate(t[i], CleanDate(t[i].data))));
  }

  /** `ceaps_data_wrangling`: the cleaning step as the pipeline calls it. */
  method CeapsDataWrangling(df: Frame<RawRecord>) returns (r: Result<seq<Record>, FormatError>)
    modifies df
    ensures df.rows == Dedup(old(df.rows))
    ensures r == Normalize(df.rows)
  {
    r := FormatData(df);
  }
}
