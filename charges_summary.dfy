/**
 * `get_records_and_total_charges`: the bursar buffer is read back from its
 * start, one record per data line after the header, and the AMOUNT column is
 * summed. Amounts are exact integer cents here; the source sums floats and
 * rounds to two decimals after every record.
 */
module ChargesSummary {
  import opened Wrappers
  import opened Decimal
  import opened CsvBuffers
  import opened ExportTransform
  import opened SeqFacts

  /** The number of data records and the sum of their amounts, in cents. */
  datatype Summary = Summary(recordCount: nat, totalCents: int)

  /** Why reading the amounts back fails. */
  datatype SummaryError =
    | MissingAmountColumn          // `row["AMOUNT"]` raises `KeyError`: the header has no such column
    | MissingAmount                // `float(None)` raises `TypeError`: the record stops before the column
    | InvalidAmount(text: string)  // `float(text)` raises `ValueError`

  const AmountColumn: string := "AMOUNT"

  // ---------------------------------------------------------------------------
  // Reading one record the way `csv.DictReader` does.

  /** The last position of `name` in the header: the one whose value a reader's dictionary keeps. */
  function LastIndexOf(header: seq<string>, name: string): (r: Option<nat>)
    ensures r.Some? ==> r.value < |header| && header[r.value] == name
    ensures r.Some? ==> forall j :: r.value < j < |header| ==> header[j] != name
    ensures r.None? <==> name !in header
  {
    if header == [] then None
    else if header[|header| - 1] == name then Some(|header| - 1)
    else
      assert header == header[..|header| - 1] + [header[|header| - 1]];
      LastIndexOf(header[..|header| - 1], name)
  }

  /** `row["AMOUNT"]` for a non-blank record: a header without the column raises, and a record too
      short for it gives the reader's filler value `None`. */
  function AmountOf(header: seq<string>, record: seq<string>): (r: Result<string, SummaryError>)
    ensures AmountColumn !in header <==> r == Failure(MissingAmountColumn)
    ensures AmountColumn in header ==>
              var last := LastIndexOf(header, AmountColumn).value;
              (r.Success? <==> last < |record|) && (r.Success? ==> r.value == record[last]) &&
              (r.Failure? ==> r == Failure(MissingAmount))
  {
    match LastIndexOf(header, AmountColumn)
    case None => Failure(MissingAmountColumn)
    case Some(i) => if i < |record| then Success(record[i]) else Failure(MissingAmount)
  }

  // ---------------------------------------------------------------------------
  // Amounts as cents.

  /** The integer part of an amount read left to right: `value` and `digits` are what the digits
      so far give. A point hands over to the fraction; anything else is refused. */
  function ScanWhole(s: string, value: nat, digits: nat): Option<nat>
    decreases |s|
  {
    if s == [] then (if digits >= 1 then Some(value * 100) else None)
    else if IsDigit(s[0]) then ScanWhole(s[1..], value * 10 + DigitValue(s[0]), digits + 1)
    else if s[0] == '.' then ScanFraction(s[1..], value, digits)
    else None
  }

  /** The part after the point: at most two digits, and at least one digit in the whole amount. */
  function ScanFraction(s: string, whole: nat, digits: nat): Option<nat>
  {
    if s == [] then (if digits >= 1 then Some(whole * 100) else None)
    else if |s| == 1 then (if IsDigit(s[0]) then Some(whole * 100 + DigitValue(s[0]) * 10) else None)
    else if |s| == 2 && IsDigit(s[0]) && IsDigit(s[1]) then
      Some(whole * 100 + DigitValue(s[0]) * 10 + DigitValue(s[1]))
    else None
  }

  /** An unsigned decimal with at most two places, in cents: digits, optionally a point and up
      to two more digits, at least one digit in all. */
  function UnsignedCents(body: string): Option<nat>
  {
    ScanWhole(body, 0, 0)
  }

  /** `float(text)` for amounts of at most two decimal places, in cents; anything else is refused. */
  function ParseCents(text: string): (r: Option<int>)
    ensures r.Some? && r.value < 0 ==> |text| >= 1 && text[0] == '-'
    ensures r.Some? && |text| >= 1 && text[0] == '-' ==> r.value <= 0
  {
    var negative := |text| >= 1 && text[0] == '-';
    var body := if |text| >= 1 && (text[0] == '-' || text[0] == '+') then text[1..] else text;
    match UnsignedCents(body)
    case None => None
    case Some(v) => Some(if negative then -(v as int) else v as int)
  }

  /** An amount of cents written with two decimal places, as the export gives it. */
  function FormatCents(cents: int): string
  {
    var magnitude: nat := if cents < 0 then -cents else cents;
    (if cents < 0 then "-" else "") + NatToString(magnitude / 100) + "." + ZeroPad(magnitude % 100, 2)
  }

  /** A run of digits adds its value to the integer part read so far. */
  lemma {:induction false} ScanWholeDigits(digits: string, rest: string, value: nat, count: nat)
    requires AllDigits(digits)
    ensures ScanWhole(digits + rest, value, count)
            == ScanWhole(rest, value * Pow10(|digits|) + DigitsValue(digits), count + |digits|)
    decreases |digits|
  {
    if digits == [] {
      assert digits + rest == rest;
    } else {
      var init, last := digits[..|digits| - 1], digits[|digits| - 1];
      assert digits + rest == init + ([last] + rest);
      ScanWholeDigits(init, [last] + rest, value, count);
      var before := value * Pow10(|init|) + DigitsValue(init);
      assert ([last] + rest)[0] == last && ([last] + rest)[1..] == rest;
      assert ScanWhole([last] + rest, before, count + |init|)
             == ScanWhole(rest, before * 10 + DigitValue(last), count + |init| + 1);
      ShiftDigit(value, Pow10(|init|), DigitsValue(init), DigitValue(last));
    }
  }

  lemma ShiftDigit(value: nat, scale: nat, low: nat, digit: nat)
    ensures (value * scale + low) * 10 + digit == value * (10 * scale) + (10 * low + digit)
  {
  }

  /** The unsigned part of a formatted amount reads back as its magnitude. */
  lemma UnsignedCentsOfFormat(magnitude: nat)
    ensures UnsignedCents(NatToString(magnitude / 100) + "." + ZeroPad(magnitude % 100, 2)) == Some(magnitude)
  {
    var whole, fraction := NatToString(magnitude / 100), ZeroPad(magnitude % 100, 2);
    NatToStringRoundTrip(magnitude / 100);
    assert whole + "." + fraction == whole + ("." + fraction);
    ScanWholeDigits(whole, "." + fraction, 0, 0);
    assert ("." + fraction)[1..] == fraction;
    ScanPaddedFraction(magnitude % 100, magnitude / 100, |whole|);
  }

  /** Two digits of cents after the point complete the amount. */
  lemma ScanPaddedFraction(cents: nat, whole: nat, digits: nat)
    requires cents < 100
    ensures ScanFraction(ZeroPad(cents, 2), whole, digits) == Some(whole * 100 + cents)
  {
    var fraction := ZeroPad(cents, 2);
    assert Pow10(2) == 100;
    ZeroPadWidth(cents, 2);
    ZeroPadRoundTrip(cents, 2);
    assert fraction[..1][..0] == [];
    assert DigitsValue(fraction) == 10 * DigitValue(fraction[0]) + DigitValue(fraction[1]);
  }

  /** Reading a formatted amount gives back the amount. */
  lemma FormatCentsRoundTrip(cents: int)
    ensures ParseCents(FormatCents(cents)) == Some(cents)
  {
    var magnitude: nat := if cents < 0 then -cents else cents;
    var body := NatToString(magnitude / 100) + "." + ZeroPad(magnitude % 100, 2);
    UnsignedCentsOfFormat(magnitude);
    var text := FormatCents(cents);
    if cents < 0 {
      assert text == "-" + body;
      assert text[0] == '-' && text[1..] == body;
    } else {
      assert text == body;
      assert IsDigit(text[0]) && text[0] != '-' && text[0] != '+';
    }
  }

  /** Up to two digits after the point complete the amount; a missing digit counts as zero. */
  lemma ScanFractionDigits(fraction: string, whole: nat, count: nat)
    requires AllDigits(fraction) && |fraction| <= 2 && count + |fraction| >= 1
    ensures ScanFraction(fraction, whole, count)
            == Some(whole * 100 + DigitsValue(fraction) * Pow10(2 - |fraction|))
  {
    if |fraction| == 0 {
      assert Pow10(2) == 100;
    } else if |fraction| == 1 {
      assert fraction[..0] == [] && Pow10(1) == 10;
    } else {
      assert fraction[..1][..0] == [];
      assert DigitsValue(fraction) == 10 * DigitValue(fraction[0]) + DigitValue(fraction[1]);
    }
  }

  /** Digits, a point and up to two digits read as the amount they denote, in cents. */
  lemma UnsignedCentsOfDecimal(whole: string, fraction: string)
    requires AllDigits(whole) && AllDigits(fraction) && |fraction| <= 2 && |whole| + |fraction| >= 1
    ensures UnsignedCents(whole + "." + fraction)
            == Some(DigitsValue(whole) * 100 + DigitsValue(fraction) * Pow10(2 - |fraction|))
  {
    assert whole + "." + fraction == whole + ("." + fraction);
    ScanWholeDigits(whole, "." + fraction, 0, 0);
    assert ("." + fraction)[0] == '.' && ("." + fraction)[1..] == fraction;
    ScanFractionDigits(fraction, DigitsValue(whole), |whole|);
  }

  /** Digits without a point read as that many whole units. */
  lemma UnsignedCentsOfWhole(whole: string)
    requires AllDigits(whole) && whole != []
    ensures UnsignedCents(whole) == Some(DigitsValue(whole) * 100)
  {
    assert whole + [] == whole;
    ScanWholeDigits(whole, [], 0, 0);
  }

  /** A sign, digits, a point and up to two digits: `float` gives the amount they denote,
      negated after a minus; leading zeros and a missing second decimal are allowed. */
  lemma ParseCentsOfDecimal(sign: string, whole: string, fraction: string)
    requires sign == "" || sign == "+" || sign == "-"
    requires AllDigits(whole) && AllDigits(fraction) && |fraction| <= 2 && |whole| + |fraction| >= 1
    ensures var cents: int := DigitsValue(whole) * 100 + DigitsValue(fraction) * Pow10(2 - |fraction|);
            ParseCents(sign + whole + "." + fraction) == Some(if sign == "-" then -cents else cents)
  {
    var body := whole + "." + fraction;
    UnsignedCentsOfDecimal(whole, fraction);
    if whole == [] {
      assert body[0] == '.';
    } else {
      assert body[0] == whole[0];
    }
    SignedBody(sign, body);
    AppendAssoc(sign, whole, ".");
    AppendAssoc(sign, whole + ".", fraction);
  }

  /** A sign and digits without a point: `float` gives that many whole units, negated after a minus. */
  lemma ParseCentsOfWhole(sign: string, whole: string)
    requires sign == "" || sign == "+" || sign == "-"
    requires AllDigits(whole) && whole != []
    ensures var units: int := DigitsValue(whole) * 100;
            ParseCents(sign + whole) == Some(if sign == "-" then -units else units)
  {
    UnsignedCentsOfWhole(whole);
    assert IsDigit(whole[0]);
    SignedBody(sign, whole);
  }

  /** `s` has its point at `k`: digits before it, and at most two digits after it. */
  predicate PointAt(s: string, k: int)
  {
    0 <= k < |s| && s[k] == '.' && AllDigits(s[..k]) && AllDigits(s[k + 1..]) && |s| - k - 1 <= 2
  }

  lemma ConsDigit(c: char, t: string)
    requires IsDigit(c) && AllDigits(t)
    ensures AllDigits([c] + t)
  {
    assert forall i :: 0 < i < |[c] + t| ==> ([c] + t)[i] == t[i - 1];
  }

  lemma ConsDigitBeforePoint(c: char, t: string, k: int)
    requires IsDigit(c) && PointAt(t, k)
    ensures PointAt([c] + t, k + 1)
  {
    var s := [c] + t;
    assert s[..k + 1] == [c] + t[..k];
    ConsDigit(c, t[..k]);
    assert s[k + 2..] == t[k + 1..];
  }

  /** What the integer-part scanner accepts: digits, or digits, a point and at most two digits,
      with at least one digit counting those already read. */
  lemma {:induction false} ScanWholeAccepts(s: string, value: nat, count: nat)
    requires ScanWhole(s, value, count).Some?
    ensures (AllDigits(s) && count + |s| >= 1) || exists k :: PointAt(s, k) && count + |s| >= 2
    decreases |s|
  {
    if s != [] {
      if IsDigit(s[0]) {
        ScanWholeAccepts(s[1..], value * 10 + DigitValue(s[0]), count + 1);
        assert s == [s[0]] + s[1..];
        if AllDigits(s[1..]) {
          ConsDigit(s[0], s[1..]);
        } else {
          var k :| PointAt(s[1..], k) && count + 1 + |s[1..]| >= 2;
          ConsDigitBeforePoint(s[0], s[1..], k);
        }
      } else {
        assert s[..0] == [] && PointAt(s, 0);
      }
    }
  }

  /** The model reads nothing but an optional sign followed by digits, or by digits, a point and
      at most two digits, with at least one digit in all: exactly the shapes that
      `ParseCentsOfWhole` and `ParseCentsOfDecimal` give the value of. */
  lemma ParseCentsAcceptsOnly(text: string)
    requires ParseCents(text).Some?
    ensures var body := if |text| >= 1 && (text[0] == '-' || text[0] == '+') then text[1..] else text;
            (AllDigits(body) && body != []) || exists k :: PointAt(body, k) && |body| >= 2
  {
    var body := if |text| >= 1 && (text[0] == '-' || text[0] == '+') then text[1..] else text;
    ScanWholeAccepts(body, 0, 0);
  }

  /** A sign in front of an unsigned amount negates it or leaves it as it is. */
  lemma SignedBody(sign: string, body: string)
    requires sign == "" || sign == "+" || sign == "-"
    requires body != [] && (body[0] == '.' || IsDigit(body[0]))
    requires UnsignedCents(body).Some?
    ensures ParseCents(sign + body)
            == Some(if sign == "-" then -(UnsignedCents(body).value as int) else UnsignedCents(body).value as int)
  {
    if sign == "" {
      assert sign + body == body;
    } else {
      assert (sign + body)[0] == sign[0] && (sign + body)[1..] == body;
    }
  }

  /** The amounts of the test export and some the reader refuses. */
  lemma ParseCentsExamples()
    ensures ParseCents("123.45") == Some(12345)
    ensures ParseCents("1.5") == Some(150)
    ensures ParseCents(".5") == Some(50)
    ensures ParseCents("7") == Some(700)
    ensures ParseCents("-0.50") == Some(-50)
    ensures ParseCents("100.00") == Some(10000)
    ensures ParseCents("279.72") == Some(27972)
  {
    assert "-0.50"[1..] == "0.50";
    assert UnsignedCents("0.50") == Some(50);
  }

  /** Amounts the reader refuses: nothing, a point alone, three decimals, letters. */
  lemma ParseCentsRefusals()
    ensures ParseCents("") == None
    ensures ParseCents(".") == None
    ensures ParseCents("1.234") == None
    ensures ParseCents("abc") == None
  {
  }

  // ---------------------------------------------------------------------------
  // The summary.

  /** The cents of one non-blank record. */
  function RecordCents(header: seq<string>, record: seq<string>): Result<int, SummaryError>
  {
    match AmountOf(header, record)
    case Failure(e) => Failure(e)
    case Success(text) =>
      match ParseCents(text)
      case None => Failure(InvalidAmount(text))
      case Some(cents) => Success(cents)
  }

  /** The records after the header, in order: blank lines are passed over, every other record
      counts once and adds its amount; the first amount that cannot be read ends it. */
  function Tally(header: seq<string>, records: seq<seq<string>>): Result<Summary, SummaryError>
  {
    if records == [] then Success(Summary(0, 0))
    else
      match Tally(header, records[..|records| - 1])
      case Failure(e) => Failure(e)
      case Success(s) =>
        var record := records[|records| - 1];
        if record == [] then Success(s)
        else
          match RecordCents(header, record)
          case Failure(e) => Failure(e)
          case Success(cents) => Success(Summary(s.recordCount + 1, s.totalCents + cents))
  }

  /** Once an amount cannot be read, later records change nothing. */
  lemma {:induction false} TallyFailureSticks(header: seq<string>, records: seq<seq<string>>, more: seq<seq<string>>)
    requires Tally(header, records).Failure?
    ensures Tally(header, records + more) == Tally(header, records)
    decreases |more|
  {
    if more == [] {
      AppendEmpty(records);
    } else {
      SnocAppend(records, more);
      TallyFailureSticks(header, records, more[..|more| - 1]);
    }
  }

  /** The summary of a whole buffer: the first record is the header; an empty buffer has none. */
  function Summarize(lines: seq<seq<string>>): Result<Summary, SummaryError>
  {
    if lines == [] then Success(Summary(0, 0)) else Tally(lines[0], lines[1..])
  }

  /** `get_records_and_total_charges(bursar_csv)`: rewinds the buffer and reads it to the end. */
  method GetRecordsAndTotalCharges(bursarCsv: CsvBuffer) returns (r: Result<Summary, SummaryError>)
    requires bursarCsv.Valid()
    modifies bursarCsv
    ensures bursarCsv.Valid() && bursarCsv.lines == old(bursarCsv.lines)
    ensures r == Summarize(bursarCsv.lines)
    ensures r.Success? ==> bursarCsv.position == |bursarCsv.lines|
  {
    bursarCsv.Rewind();
    ghost var lines := bursarCsv.lines;
    var recordCount: nat := 0;
    var totalCents := 0;
    var fieldnames := bursarCsv.ReadLine();
    if fieldnames.None? {
      return Success(Summary(recordCount, totalCents));
    }
    var header := fieldnames.value;
    while true
      invariant bursarCsv.Valid() && bursarCsv.lines == lines && 1 <= bursarCsv.position
      invariant header == lines[0]
      invariant Tally(header, lines[1..bursarCsv.position]) == Success(Summary(recordCount, totalCents))
      decreases |lines| - bursarCsv.position
    {
      ghost var at := bursarCsv.position;
      var row := bursarCsv.ReadLine();
      if row.None? {
        break;
      }
      assert lines[1..at + 1][..at - 1] == lines[1..at];
      if row.value == [] {
        continue;
      }
      recordCount := recordCount + 1;
      var amount := AmountOf(header, row.value);
      if amount.Failure? {
        TallyFailureSticks(header, lines[1..at + 1], lines[at + 1..]);
        assert lines[1..at + 1] + lines[at + 1..] == lines[1..];
        return Failure(amount.error);
      }
      var cents := ParseCents(amount.value);
      if cents.None? {
        TallyFailureSticks(header, lines[1..at + 1], lines[at + 1..]);
        assert lines[1..at + 1] + lines[at + 1..] == lines[1..];
        return Failure(InvalidAmount(amount.value));
      }
      totalCents := totalCents + cents.value;
    }
    assert lines[1..bursarCsv.position] == lines[1..];
    r := Success(Summary(recordCount, totalCents));
  }

  /** The buffer is rewound first, so asking twice gives the same answer and leaves it as it was. */
  method SummarizeTwice(bursarCsv: CsvBuffer) returns (first: Result<Summary, SummaryError>, second: Result<Summary, SummaryError>)
    requires bursarCsv.Valid()
    modifies bursarCsv
    ensures first == second == Summarize(old(bursarCsv.lines))
    ensures bursarCsv.lines == old(bursarCsv.lines)
  {
    first := GetRecordsAndTotalCharges(bursarCsv);
    second := GetRecordsAndTotalCharges(bursarCsv);
  }

  // ---------------------------------------------------------------------------
  // The summary of a converted export.

  /** The sum of the rows' amounts, when every one of them is a number. */
  function TotalCents(rows: seq<Row>): Option<int>
  {
    if rows == [] then Some(0)
    else
      match TotalCents(rows[..|rows| - 1])
      case None => None
      case Some(total) =>
        match ParseCents(rows[|rows| - 1].amount)
        case None => None
        case Some(cents) => Some(total + cents)
  }

  /** The sum is defined exactly when every amount is a number. */
  lemma {:induction false} TotalCentsDefined(rows: seq<Row>)
    ensures TotalCents(rows).Some? <==> forall k :: 0 <= k < |rows| ==> ParseCents(rows[k].amount).Some?
    decreases |rows|
  {
    if rows != [] {
      var init := rows[..|rows| - 1];
      TotalCentsDefined(init);
      assert forall k :: 0 <= k < |init| ==> init[k] == rows[k];
    }
  }

  /** The records of a converted export as the reader sees them after the header. */
  function DataRecords(rows: seq<Row>): (records: seq<seq<string>>)
    ensures |records| == |rows| && forall k :: 0 <= k < |rows| ==> records[k] == rows[k].Fields()
  {
    seq(|rows|, k requires 0 <= k < |rows| => rows[k].Fields())
  }

  lemma AmountColumnOfFieldNames()
    ensures LastIndexOf(FieldNames, AmountColumn) == Some(4)
  {
  }

  /** Under a header whose AMOUNT column is the fifth, a row's amount is read from its AMOUNT field. */
  lemma RecordCentsOfRow(header: seq<string>, row: Row)
    requires LastIndexOf(header, AmountColumn) == Some(4)
    ensures RecordCents(header, row.Fields())
            == match ParseCents(row.amount)
               case None => Failure(InvalidAmount(row.amount))
               case Some(cents) => Success(cents)
  {
    assert AmountOf(header, row.Fields()) == Success(row.amount);
  }

  /** Read back under a header whose AMOUNT column is the fifth, the records of a conversion
      count one per row and sum to the rows' amounts; reading fails exactly when some amount is
      not a number. */
  lemma {:induction false} TallyOfRows(header: seq<string>, rows: seq<Row>)
    requires LastIndexOf(header, AmountColumn) == Some(4)
    ensures TotalCents(rows).Some? ==> Tally(header, DataRecords(rows)) == Success(Summary(|rows|, TotalCents(rows).value))
    ensures TotalCents(rows).None? ==> Tally(header, DataRecords(rows)).Failure?
    decreases |rows|
  {
    if rows != [] {
      var init, amount := rows[..|rows| - 1], ParseCents(rows[|rows| - 1].amount);
      TallyOfRows(header, init);
      TallyOfRowsStep(header, rows);
      assert TotalCents(rows)
             == if TotalCents(init).Some? && amount.Some? then Some(TotalCents(init).value + amount.value) else None;
    }
  }

  /** One row more adds one record and its amount, or fails on it. */
  lemma TallyOfRowsStep(header: seq<string>, rows: seq<Row>)
    requires LastIndexOf(header, AmountColumn) == Some(4) && rows != []
    ensures var before, amount := Tally(header, DataRecords(rows[..|rows| - 1])), ParseCents(rows[|rows| - 1].amount);
            if before.Success? && amount.Some? then
              Tally(header, DataRecords(rows))
              == Success(Summary(before.value.recordCount + 1, before.value.totalCents + amount.value))
            else Tally(header, DataRecords(rows)).Failure?
  {
    var init, last := rows[..|rows| - 1], rows[|rows| - 1];
    assert DataRecords(rows) == DataRecords(init) + [last.Fields()];
    RecordCentsOfRow(header, last);
    TallySnoc(header, DataRecords(init), last.Fields());
  }

  /** One non-blank record more. */
  lemma TallySnoc(header: seq<string>, records: seq<seq<string>>, record: seq<string>)
    requires record != []
    ensures Tally(header, records + [record])
            == match Tally(header, records)
               case Failure(e) => Failure(e)
               case Success(s) =>
                 match RecordCents(header, record)
                 case Failure(e) => Failure(e)
                 case Success(cents) => Success(Summary(s.recordCount + 1, s.totalCents + cents))
  {
    assert (records + [record])[..|records|] == records;
  }

  /** What `lambda_handler` reports for a converted export: as many records as rows written and
      the sum of their amounts; reading fails exactly when some amount is not a number. */
  lemma SummaryOfConversion(rows: seq<Row>)
    ensures Summarize(CsvLines(rows)).Success? <==> forall k :: 0 <= k < |rows| ==> ParseCents(rows[k].amount).Some?
    ensures TotalCents(rows).Some? ==> Summarize(CsvLines(rows)) == Success(Summary(|rows|, TotalCents(rows).value))
  {
    assert CsvLines(rows)[1..] == DataRecords(rows);
    AmountColumnOfFieldNames();
    TallyOfRows(FieldNames, rows);
    TotalCentsDefined(rows);
  }

  /** Three amounts written as the export gives them. */
  lemma SummaryExample(a: Row, b: Row)
    requires a.amount == "100.00" && b.amount == "279.72"
    ensures Summarize(CsvLines([a, a, b])) == Success(Summary(3, 47972))
  {
    assert ParseCents(a.amount) == Some(10000) && ParseCents(b.amount) == Some(27972) by {
      ParseCentsExamples();
    }
    assert [a, a, b][..2] == [a, a] && [a, a][..1] == [a] && [a][..0] == [];
    assert TotalCents([a]) == Some(10000);
    assert TotalCents([a, a]) == Some(20000);
    assert TotalCents([a, a, b]) == Some(47972);
    SummaryOfConversion([a, a, b]);
  }

  /** A header without AMOUNT fails only once there is a record to read; a record too short
      for the column fails; blank lines are passed over. */
  lemma SummaryErrorExamples()
    ensures Summarize([["MITID"]]) == Success(Summary(0, 0))
    ensures Summarize([["MITID"], ["123"]]) == Failure(MissingAmountColumn)
    ensures Summarize([FieldNames, [], ["x"]]) == Failure(MissingAmount)
    ensures Summarize([FieldNames, []]) == Success(Summary(0, 0))
    ensures AmountOf(["AMOUNT", "AMOUNT"], ["1.00", "2.50"]) == Success("2.50")
  {
    AmountColumnOfFieldNames();
    var records: seq<seq<string>> := [[], ["x"]];
    var blank: seq<seq<string>> := [[]];
    assert [FieldNames, [], ["x"]][1..] == records;
    assert records[..1] == blank && blank[..0] == [];
    assert Tally(FieldNames, blank) == Success(Summary(0, 0));
    assert AmountOf(FieldNames, ["x"]) == Failure(MissingAmount);
    assert [FieldNames, []][1..] == blank;
    assert LastIndexOf(["AMOUNT", "AMOUNT"], "AMOUNT") == Some(1);
  }
}
