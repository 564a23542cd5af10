/**
 * `xml_to_csv`: the fines and fees of every patron of the export, in document
 * order, become bursar rows. A fee of a type outside the catalogue is skipped
 * and logged; a fee of a known type whose patron id, patron name or amount is
 * missing or empty aborts the whole conversion.
 */
module ExportTransform {
  import opened Wrappers
  import opened BillingTerms
  import opened FeeDescriptions
  import opened CsvBuffers
  import opened SeqFacts
  import opened Strings

  /** One `userFineFee` of the export. `findtext` gives "" for a missing barcode, type or
      transaction id, and `None` for a missing amount. */
  datatype Fee = Fee(barcode: string, feeType: string, amount: Option<string>, transactionId: string)

  /** One `userExportedFineFeesList`: the patron's id and name (`None` when the element is
      missing, "" when it is empty) and the patron's fees in document order. */
  datatype User = User(id: Option<string>, name: Option<string>, fees: seq<Fee>)

  const DetailCode: string := "ROLH"

  /** The columns of the bursar file, in order. */
  const FieldNames: seq<string> :=
    ["MITID", "STUDENTNAME", "DETAILCODE", "DESCRIPTION", "AMOUNT", "EFFECTIVEDATE", "BILLINGTERM"]

  /** The same columns as a set; `FieldSetOfFieldNames` shows the two lists agree. */
  const FieldSet: set<string> :=
    {"MITID", "STUDENTNAME", "DETAILCODE", "DESCRIPTION", "AMOUNT", "EFFECTIVEDATE", "BILLINGTERM"}

  lemma FieldSetOfFieldNames()
    ensures FieldSet == set f <- FieldNames
    ensures |FieldNames| == |FieldSet| == 7
  {
  }

  /** The dictionary of a patron: only columns of the file, holding the patron's id and name. */
  predicate PatronLine(line: CsvLine, user: User)
  {
    line.Keys <= FieldSet && "MITID" in line && line["MITID"] == user.id
    && "STUDENTNAME" in line && line["STUDENTNAME"] == user.name
  }

  /** One data row of the bursar file. */
  datatype Row = Row(mitId: string, studentName: string, detailCode: string, description: string,
                     amount: string, effectiveDate: string, billingTerm: string) {
    /** The row as the writer lays it out, column by column. */
    function Fields(): seq<string>
    {
      [mitId, studentName, detailCode, description, amount, effectiveDate, billingTerm]
    }
  }

  /** The error-level log entry for a skipped fee. */
  datatype SkipEntry = SkipEntry(transactionId: string, reason: DescriptionError) {
    function Message(): (text: string)
      ensures StartsWith(text, "Skipping transaction " + transactionId + ". ")
      ensures |text| >= |reason.Message()| && text[|text| - |reason.Message()|..] == reason.Message()
    {
      var lead := "Skipping transaction " + transactionId + ". ";
      assert (lead + reason.Message())[..|lead|] == lead;
      lead + reason.Message()
    }
  }

  /** The `ValueError` that aborts the conversion. */
  datatype ConversionError = MissingValues {
    function Message(): (text: string)
      ensures Occurs("required values are missing", text)
    {
      var lead, missing := "One or more ", "required values are missing";
      var text := lead + missing + " from the export file";
      assert text[|lead|..|lead| + |missing|] == missing;
      assert OccursAt(missing, text, |lead|);
      text
    }
  }

  /** Python truthiness of a value read from the export: present and not empty. */
  predicate Truthy(v: Option<string>)
  {
    v.Some? && v.value != ""
  }

  /** The per-fee `csv_line` dictionary once all seven columns are filled. */
  type CsvLine = map<string, Option<string>>

  /** `all(csv_line.values())`. */
  predicate AllTruthy(line: CsvLine)
  {
    forall k <- line.Keys :: Truthy(line[k])
  }

  /** A fee together with the patron it is charged to. */
  datatype Charge = Charge(user: User, fee: Fee)

  /** The fees of one patron, each paired with the patron. */
  function ChargesOf(user: User, fees: seq<Fee>): (charges: seq<Charge>)
    ensures |charges| == |fees|
  {
    seq(|fees|, k requires 0 <= k < |fees| => Charge(user, fees[k]))
  }

  /** Every fee of the export in document order: patrons in turn, each patron's fees in turn. */
  function Charges(users: seq<User>): seq<Charge>
  {
    if users == [] then []
    else
      var last := users[|users| - 1];
      Charges(users[..|users| - 1]) + ChargesOf(last, last.fees)
  }

  predicate Recognized(c: Charge)
  {
    c.fee.feeType in KnownFeeTypes
  }

  /** The values a row takes from the export are all there. */
  predicate Complete(c: Charge)
  {
    Truthy(c.user.id) && Truthy(c.user.name) && Truthy(c.fee.amount)
  }

  /** The dictionary `xml_to_csv` checks for a fee whose description is `description`. */
  function ChargeLine(c: Charge, description: string, today: Date): CsvLine
    requires today.Valid()
  {
    map["MITID" := c.user.id, "STUDENTNAME" := c.user.name, "DETAILCODE" := Some(DetailCode),
        "DESCRIPTION" := Some(description), "AMOUNT" := c.fee.amount,
        "EFFECTIVEDATE" := Some(FormatEffectiveDate(today)), "BILLINGTERM" := Some(BillingTerm(today))]
  }

  /** The row written for a recognised, complete fee. Every column is filled, the detail
      code is constant, the description fits its column, and the two date columns come
      from the run's date alone. */
  function RowFor(c: Charge, today: Date): (row: Row)
    requires today.Valid() && Recognized(c) && Complete(c)
    ensures forall f <- row.Fields() :: f != ""
    ensures row.detailCode == DetailCode && |row.description| <= DescriptionLimit
    ensures row.effectiveDate == FormatEffectiveDate(today) && row.billingTerm == BillingTerm(today)
    ensures row.mitId == c.user.id.value && row.studentName == c.user.name.value
    ensures row.amount == c.fee.amount.value
    ensures row.description == GenerateDescription(c.fee.feeType, c.fee.barcode).value
  {
    Row(c.user.id.value, c.user.name.value, DetailCode,
        GenerateDescription(c.fee.feeType, c.fee.barcode).value, c.fee.amount.value,
        FormatEffectiveDate(today), BillingTerm(today))
  }

  /** What `xml_to_csv` does with one fee. */
  datatype FeeOutcome = Skipped(entry: SkipEntry) | Emitted(row: Row) | Incomplete

  /** What `xml_to_csv` does with one fee: a fee of an unknown type is skipped and logged whatever
      else it lacks, a complete fee of a known type gives its row, an incomplete one aborts. */
  function ProcessCharge(c: Charge, today: Date): (outcome: FeeOutcome)
    requires today.Valid()
    ensures outcome.Skipped? <==> !Recognized(c)
    ensures outcome.Skipped? ==> outcome.entry == SkipEntry(c.fee.transactionId, UnrecognizedFeeType(c.fee.feeType))
    ensures outcome.Emitted? <==> Recognized(c) && Complete(c)
    ensures outcome.Emitted? ==> outcome.row == RowFor(c, today)
  {
    match GenerateDescription(c.fee.feeType, c.fee.barcode)
    case Failure(e) => Skipped(SkipEntry(c.fee.transactionId, e))
    case Success(description) =>
      assert |description| >= 12;
      LineCheckIsCompleteness(c, description, today);
      if AllTruthy(ChargeLine(c, description, today)) then Emitted(RowFor(c, today))
      else Incomplete
  }

  /** The state of a conversion: rows written, entries logged, and whether it was aborted. */
  datatype Progress = Progress(rows: seq<Row>, log: seq<SkipEntry>, failed: bool)

  const Start := Progress([], [], false)

  /** One fee more; once aborted nothing changes. */
  function Step(p: Progress, c: Charge, today: Date): Progress
    requires today.Valid()
  {
    if p.failed then p
    else
      match ProcessCharge(c, today)
      case Skipped(entry) => p.(log := p.log + [entry])
      case Emitted(row) => p.(rows := p.rows + [row])
      case Incomplete => p.(failed := true)
  }

  /** The conversion of a run of fees, one step per fee in order. */
  function Run(charges: seq<Charge>, today: Date): Progress
    requires today.Valid()
  {
    if charges == [] then Start
    else Step(Run(charges[..|charges| - 1], today), charges[|charges| - 1], today)
  }

  /** The conversion of a whole export. */
  function Convert(users: seq<User>, today: Date): Progress
    requires today.Valid()
  {
    Run(Charges(users), today)
  }

  /** The contents of the finished buffer: the header, then one record per row. */
  function CsvLines(rows: seq<Row>): (lines: seq<seq<string>>)
    ensures |lines| == |rows| + 1 && lines[0] == FieldNames
    ensures forall k :: 0 <= k < |rows| ==> lines[k + 1] == rows[k].Fields()
  {
    [FieldNames] + seq(|rows|, k requires 0 <= k < |rows| => rows[k].Fields())
  }

  // ---------------------------------------------------------------------------
  // Reference definitions: what the conversion should produce, charge by charge.

  /** The rows expected from a run of fees: one per recognised, complete fee, in order. When no
      fee aborts, that is one per recognised fee. */
  function ExpectedRows(charges: seq<Charge>, today: Date): seq<Row>
    requires today.Valid()
  {
    if charges == [] then []
    else
      (if Recognized(charges[0]) && Complete(charges[0]) then [RowFor(charges[0], today)] else [])
      + ExpectedRows(charges[1..], today)
  }

  /** The log entries expected from a run of fees: one per fee of an unknown type, in order. */
  function SkippedEntries(charges: seq<Charge>): seq<SkipEntry>
  {
    if charges == [] then []
    else
      var c := charges[0];
      (if Recognized(c) then [] else [SkipEntry(c.fee.transactionId, UnrecognizedFeeType(c.fee.feeType))])
      + SkippedEntries(charges[1..])
  }

  /** A fee of a known type whose row would miss a value. */
  predicate Aborts(c: Charge)
  {
    Recognized(c) && !Complete(c)
  }

  predicate NoneAborts(charges: seq<Charge>)
  {
    forall k :: 0 <= k < |charges| ==> !Aborts(charges[k])
  }

  // ---------------------------------------------------------------------------
  // The conversion loop.

  /** `xml_to_csv(alma_xml, today)` on the parsed export: the buffer holding the bursar file,
      or the error that aborted it, and the entries logged for skipped fees. */
  method XmlToCsv(users: seq<User>, today: Date) returns (result: Result<CsvBuffer, ConversionError>, log: seq<SkipEntry>)
    requires today.Valid()
    ensures log == Convert(users, today).log
    ensures result.Failure? <==> Convert(users, today).failed
    ensures result.Failure? ==> result.error == MissingValues
    ensures result.Success? ==>
              fresh(result.value) && result.value.Valid()
              && result.value.lines == CsvLines(Convert(users, today).rows)
              && result.value.position == |result.value.lines|
  {
    var csvFile := new CsvBuffer();
    csvFile.WriteRow(FieldNames);
    log := [];
    ghost var done: seq<Charge> := [];
    for i := 0 to |users|
      invariant done == Charges(users[..i])
      invariant !Run(done, today).failed && log == Run(done, today).log
      invariant fresh(csvFile) && csvFile.Valid()
      invariant csvFile.lines == CsvLines(Run(done, today).rows) && csvFile.position == |csvFile.lines|
    {
      var user := users[i];
      var converted;
      converted, log := ConvertPatron(csvFile, user, done, log, today);
      PrefixOfPrefix(users, i + 1, i);
      assert Charges(users[..i + 1]) == done + ChargesOf(user, user.fees);
      if !converted {
        ChargesAppend(users[..i + 1], users[i + 1..]);
        SplitAt(users, i + 1);
        RunFailedSticks(Charges(users[..i + 1]), Charges(users[i + 1..]), today);
        return Failure(MissingValues), log;
      }
      done := done + ChargesOf(user, user.fees);
    }
    assert users[..|users|] == users;
    result := Success(csvFile);
  }

  /** The body of the patron loop of `xml_to_csv`: the patron's dictionary is started with
      the patron's id and name, and each of the patron's fees is converted in turn, until one
      aborts the conversion. `done` are the fees converted before. */
  method ConvertPatron(csvFile: CsvBuffer, user: User, ghost done: seq<Charge>, log: seq<SkipEntry>, today: Date)
    returns (converted: bool, newLog: seq<SkipEntry>)
    requires today.Valid() && !Run(done, today).failed && log == Run(done, today).log
    requires csvFile.Valid() && csvFile.lines == CsvLines(Run(done, today).rows)
    requires csvFile.position == |csvFile.lines|
    modifies csvFile
    ensures converted <==> !Run(done + ChargesOf(user, user.fees), today).failed
    ensures newLog == Run(done + ChargesOf(user, user.fees), today).log
    ensures csvFile.Valid()
    ensures converted ==>
              csvFile.lines == CsvLines(Run(done + ChargesOf(user, user.fees), today).rows)
              && csvFile.position == |csvFile.lines|
  {
    newLog := log;
    var csvLine: CsvLine := map[];
    csvLine := csvLine["MITID" := user.id];
    csvLine := csvLine["STUDENTNAME" := user.name];
    ghost var p := Run(done, today);
    assert done + ChargesOf(user, user.fees[..0]) == done;
    for j := 0 to |user.fees|
      invariant p == Run(done + ChargesOf(user, user.fees[..j]), today) && !p.failed && newLog == p.log
      invariant PatronLine(csvLine, user)
      invariant csvFile.Valid()
      invariant csvFile.lines == CsvLines(p.rows) && csvFile.position == |csvFile.lines|
    {
      var fineFee := user.fees[j];
      ghost var c := Charge(user, fineFee);
      ChargesOfExtend(done, user, j);
      var outcome;
      csvLine, outcome := ConvertFee(csvFile, csvLine, Charge(user, fineFee), today);
      ghost var written := p.rows;
      p := Step(p, c, today);
      match outcome
      case Skipped(entry) =>
        newLog := newLog + [entry];
      case Emitted(row) =>
        CsvLinesAppend(written, row);
      case Incomplete =>
        FailedPatron(done, user, j, today);
        return false, newLog;
    }
    assert user.fees[..|user.fees|] == user.fees;
    converted := true;
  }

  /** The body of the fee loop of `xml_to_csv`: the patron's dictionary is filled for one fee
      and, when every value is there, its row is written. The caller logs a skipped fee and
      raises on an incomplete one. */
  method ConvertFee(csvFile: CsvBuffer, csvLine: CsvLine, c: Charge, today: Date)
    returns (filled: CsvLine, outcome: FeeOutcome)
    requires today.Valid() && csvFile.Valid() && csvFile.position == |csvFile.lines|
    requires PatronLine(csvLine, c.user)
    modifies csvFile
    ensures outcome == ProcessCharge(c, today)
    ensures PatronLine(filled, c.user)
    ensures csvFile.Valid() && csvFile.position == |csvFile.lines|
    ensures csvFile.lines == old(csvFile.lines) + (if outcome.Emitted? then [outcome.row.Fields()] else [])
  {
    FillColumn(csvLine, c.user, "DETAILCODE", Some(DetailCode));
    filled := csvLine["DETAILCODE" := Some(DetailCode)];
    var barcode := c.fee.barcode;
    var fineFeeType := c.fee.feeType;
    var description := GenerateDescription(fineFeeType, barcode);
    if description.Failure? {
      var transactionId := c.fee.transactionId;
      return filled, Skipped(SkipEntry(transactionId, description.error));
    }
    FillColumn(filled, c.user, "DESCRIPTION", Some(description.value));
    filled := filled["DESCRIPTION" := Some(description.value)];
    FillColumn(filled, c.user, "AMOUNT", c.fee.amount);
    filled := filled["AMOUNT" := c.fee.amount];
    FillColumn(filled, c.user, "EFFECTIVEDATE", Some(FormatEffectiveDate(today)));
    filled := filled["EFFECTIVEDATE" := Some(FormatEffectiveDate(today))];
    FillColumn(filled, c.user, "BILLINGTERM", Some(BillingTerm(today)));
    filled := filled["BILLINGTERM" := Some(BillingTerm(today))];
    FilledLine(csvLine, c, description.value, today);
    assert filled == ChargeLine(c, description.value, today);
    if AllTruthy(filled) {
      var row := [filled["MITID"].value, filled["STUDENTNAME"].value, filled["DETAILCODE"].value,
                  filled["DESCRIPTION"].value, filled["AMOUNT"].value, filled["EFFECTIVEDATE"].value,
                  filled["BILLINGTERM"].value];
      LineCheckIsCompleteness(c, description.value, today);
      RowOfLine(c, description.value, today);
      assert row == RowFor(c, today).Fields();
      csvFile.WriteRow(row);
      outcome := Emitted(RowFor(c, today));
    } else {
      outcome := Incomplete;
    }
  }

  // ---------------------------------------------------------------------------
  // Lemmas the loop relies on.

  /** The truthiness check on the filled dictionary tests exactly the three values taken
      from the export: the four columns the code fills itself are never empty. */
  lemma LineCheckIsCompleteness(c: Charge, description: string, today: Date)
    requires today.Valid() && description != ""
    ensures AllTruthy(ChargeLine(c, description, today)) <==> Complete(c)
  {
    FilledColumnsTruthy(c.user.id, c.user.name, c.fee.amount, description,
                        FormatEffectiveDate(today), BillingTerm(today));
  }

  /** A dictionary of the seven columns whose four filled-in values are non-empty is truthy
      exactly when the three values from the export are. */
  lemma FilledColumnsTruthy(id: Option<string>, name: Option<string>, amount: Option<string>,
                            description: string, date: string, term: string)
    requires description != "" && date != "" && term != ""
    ensures AllTruthy(map["MITID" := id, "STUDENTNAME" := name, "DETAILCODE" := Some(DetailCode),
                          "DESCRIPTION" := Some(description), "AMOUNT" := amount,
                          "EFFECTIVEDATE" := Some(date), "BILLINGTERM" := Some(term)])
            <==> Truthy(id) && Truthy(name) && Truthy(amount)
  {
    var line := map["MITID" := id, "STUDENTNAME" := name, "DETAILCODE" := Some(DetailCode),
                    "DESCRIPTION" := Some(description), "AMOUNT" := amount,
                    "EFFECTIVEDATE" := Some(date), "BILLINGTERM" := Some(term)];
    assert line["MITID"] == id && line["STUDENTNAME"] == name && line["AMOUNT"] == amount;
  }

  /** Filling a column other than the patron's own keeps the dictionary the patron's. */
  lemma FillColumn(line: CsvLine, user: User, column: string, value: Option<string>)
    requires PatronLine(line, user) && column in FieldSet && column != "MITID" && column != "STUDENTNAME"
    ensures PatronLine(line[column := value], user)
  {
  }

  /** Filling the five remaining columns of the patron's dictionary gives the dictionary of the fee,
      whatever an earlier fee of the patron left in those columns. */
  lemma FilledLine(line: CsvLine, c: Charge, description: string, today: Date)
    requires today.Valid() && PatronLine(line, c.user)
    ensures line["DETAILCODE" := Some(DetailCode)]["DESCRIPTION" := Some(description)]["AMOUNT" := c.fee.amount]
              ["EFFECTIVEDATE" := Some(FormatEffectiveDate(today))]["BILLINGTERM" := Some(BillingTerm(today))]
            == ChargeLine(c, description, today)
  {
  }

  /** The record written for a complete line is the fee's row. */
  lemma RowOfLine(c: Charge, description: string, today: Date)
    requires today.Valid() && Recognized(c) && Complete(c)
    requires description == GenerateDescription(c.fee.feeType, c.fee.barcode).value
    ensures var line := ChargeLine(c, description, today);
            [line["MITID"].value, line["STUDENTNAME"].value, line["DETAILCODE"].value,
             line["DESCRIPTION"].value, line["AMOUNT"].value, line["EFFECTIVEDATE"].value,
             line["BILLINGTERM"].value] == RowFor(c, today).Fields()
  {
  }

  /** One row more is one record more at the end of the file. */
  lemma CsvLinesAppend(rows: seq<Row>, row: Row)
    ensures CsvLines(rows + [row]) == CsvLines(rows) + [row.Fields()]
  {
    var a, b := CsvLines(rows + [row]), CsvLines(rows) + [row.Fields()];
    assert |a| == |b|;
    forall k | 0 <= k < |a| ensures a[k] == b[k] {
      if k > 0 && k - 1 < |rows| {
        assert (rows + [row])[k - 1] == rows[k - 1];
      }
    }
  }

  /** Taking one fee more of a patron adds its charge at the end. */
  lemma ChargesOfExtend(done: seq<Charge>, user: User, j: nat)
    requires j < |user.fees|
    ensures done + ChargesOf(user, user.fees[..j + 1])
            == done + ChargesOf(user, user.fees[..j]) + [Charge(user, user.fees[j])]
  {
    var a, b := ChargesOf(user, user.fees[..j + 1]), ChargesOf(user, user.fees[..j]) + [Charge(user, user.fees[j])];
    assert |a| == |b|;
    forall k | 0 <= k < |a| ensures a[k] == b[k] {
    }
  }

  /** Patrons contribute their fees in turn. */
  lemma {:induction false} ChargesAppend(a: seq<User>, b: seq<User>)
    ensures Charges(a + b) == Charges(a) + Charges(b)
    decreases |b|
  {
    if b == [] {
      AppendEmpty(a);
    } else {
      var init, last := b[..|b| - 1], b[|b| - 1];
      SnocAppend(a, b);
      ChargesAppend(a, init);
      assert Charges(a + b) == Charges(a + init) + ChargesOf(last, last.fees);
      AppendAssoc(Charges(a), Charges(init), ChargesOf(last, last.fees));
    }
  }

  /** Once aborted, a conversion ignores every further fee. */
  lemma {:induction false} RunFailedSticks(a: seq<Charge>, b: seq<Charge>, today: Date)
    requires today.Valid() && Run(a, today).failed
    ensures Run(a + b, today) == Run(a, today)
    decreases |b|
  {
    if b == [] {
      AppendEmpty(a);
    } else {
      var init, last := b[..|b| - 1], b[|b| - 1];
      SnocAppend(a, b);
      RunFailedSticks(a, init, today);
      assert Run(a + b, today) == Step(Run(a + init, today), last, today);
    }
  }

  /** A patron's fees split at any point. */
  lemma ChargesOfSplit(user: User, n: nat)
    requires n <= |user.fees|
    ensures ChargesOf(user, user.fees) == ChargesOf(user, user.fees[..n]) + ChargesOf(user, user.fees[n..])
  {
    var a, b := ChargesOf(user, user.fees), ChargesOf(user, user.fees[..n]) + ChargesOf(user, user.fees[n..]);
    assert |a| == |b|;
    forall k | 0 <= k < |a| ensures a[k] == b[k] {
    }
  }

  /** Aborting on fee `j` of a patron aborts the conversion of the patron's fees as a whole. */
  lemma FailedPatron(done: seq<Charge>, user: User, j: nat, today: Date)
    requires today.Valid() && j < |user.fees|
    requires Run(done + ChargesOf(user, user.fees[..j + 1]), today).failed
    ensures Run(done + ChargesOf(user, user.fees), today) == Run(done + ChargesOf(user, user.fees[..j + 1]), today)
  {
    var head, rest := ChargesOf(user, user.fees[..j + 1]), ChargesOf(user, user.fees[j + 1..]);
    ChargesOfSplit(user, j + 1);
    AppendAssoc(done, head, rest);
    RunFailedSticks(done + head, rest, today);
  }

  // ---------------------------------------------------------------------------
  // The conversion against the reference definitions.

  /** The expected rows of consecutive runs of fees are concatenated. */
  lemma {:induction false} ExpectedRowsAppend(a: seq<Charge>, b: seq<Charge>, today: Date)
    requires today.Valid()
    ensures ExpectedRows(a + b, today) == ExpectedRows(a, today) + ExpectedRows(b, today)
    decreases |a|
  {
    if a == [] {
      AppendEmpty(b);
    } else {
      var c := a[0];
      var head := if Recognized(c) && Complete(c) then [RowFor(c, today)] else [];
      ConsAppend(a, b);
      ExpectedRowsAppend(a[1..], b, today);
      assert ExpectedRows(a + b, today) == head + ExpectedRows(a[1..] + b, today);
      AppendAssoc(head, ExpectedRows(a[1..], today), ExpectedRows(b, today));
    }
  }

  /** The expected log entries of consecutive runs of fees are concatenated. */
  lemma {:induction false} SkippedEntriesAppend(a: seq<Charge>, b: seq<Charge>)
    ensures SkippedEntries(a + b) == SkippedEntries(a) + SkippedEntries(b)
    decreases |a|
  {
    if a == [] {
      AppendEmpty(b);
    } else {
      var c := a[0];
      var head := if Recognized(c) then [] else [SkipEntry(c.fee.transactionId, UnrecognizedFeeType(c.fee.feeType))];
      ConsAppend(a, b);
      SkippedEntriesAppend(a[1..], b);
      assert SkippedEntries(a + b) == head + SkippedEntries(a[1..] + b);
      AppendAssoc(head, SkippedEntries(a[1..]), SkippedEntries(b));
    }
  }

  /** One fee more adds its row, if it has one, at the end of the expected rows. */
  lemma ExpectedRowsSnoc(charges: seq<Charge>, c: Charge, today: Date)
    requires today.Valid()
    ensures ExpectedRows(charges + [c], today)
            == ExpectedRows(charges, today) + (if Recognized(c) && Complete(c) then [RowFor(c, today)] else [])
  {
    ExpectedRowsAppend(charges, [c], today);
    assert [c][1..] == [];
  }

  /** One fee more adds its entry, if it has one, at the end of the expected log. */
  lemma SkippedEntriesSnoc(charges: seq<Charge>, c: Charge)
    ensures SkippedEntries(charges + [c])
            == SkippedEntries(charges)
               + (if Recognized(c) then [] else [SkipEntry(c.fee.transactionId, UnrecognizedFeeType(c.fee.feeType))])
  {
    SkippedEntriesAppend(charges, [c]);
    assert [c][1..] == [];
  }

  lemma NoneAbortsSnoc(charges: seq<Charge>)
    requires charges != []
    ensures NoneAborts(charges) <==> NoneAborts(charges[..|charges| - 1]) && !Aborts(charges[|charges| - 1])
  {
    PrefixIndex(charges, |charges| - 1);
  }

  /** The conversion of a run of fees aborts exactly when one of its fees is of a known type
      and incomplete; otherwise it writes one row per fee of a known type and logs one entry
      per fee of an unknown type, both in document order. */
  lemma {:induction false} RunMeetsReference(charges: seq<Charge>, today: Date)
    requires today.Valid()
    ensures Run(charges, today).failed <==> !NoneAborts(charges)
    ensures !Run(charges, today).failed ==>
              Run(charges, today).rows == ExpectedRows(charges, today)
              && Run(charges, today).log == SkippedEntries(charges)
    decreases |charges|
  {
    if charges != [] {
      var init, c := charges[..|charges| - 1], charges[|charges| - 1];
      SplitLast(charges);
      NoneAbortsSnoc(charges);
      RunMeetsReference(init, today);
      var q := Run(init, today);
      assert Run(charges, today) == Step(q, c, today);
      if !q.failed {
        ExpectedRowsSnoc(init, c, today);
        SkippedEntriesSnoc(init, c);
      }
    }
  }

  /** An aborted conversion stops at the first incomplete fee of a known type: the rows and
      entries of the fees before it are what it had produced. */
  lemma RunAborted(charges: seq<Charge>, k: nat, today: Date)
    requires today.Valid() && k < |charges| && Aborts(charges[k])
    requires forall j :: 0 <= j < k ==> !Aborts(charges[j])
    ensures NoneAborts(charges[..k])
    ensures Run(charges, today)
            == Progress(ExpectedRows(charges[..k], today), SkippedEntries(charges[..k]), true)
  {
    var front := charges[..k];
    PrefixIndex(charges, k);
    RunMeetsReference(front, today);
    PrefixOfPrefix(charges, k + 1, k);
    assert Run(charges[..k + 1], today).failed;
    RunFailedSticks(charges[..k + 1], charges[k + 1..], today);
    SplitAt(charges, k + 1);
  }

  /** A conversion that goes through accounts for every fee: each either gives a row or is logged. */
  lemma {:induction false} EveryFeeAccounted(charges: seq<Charge>, today: Date)
    requires today.Valid() && !Run(charges, today).failed
    ensures |Run(charges, today).rows| + |Run(charges, today).log| == |charges|
  {
    RunMeetsReference(charges, today);
    RowsPlusEntries(charges, today);
  }

  lemma {:induction false} RowsPlusEntries(charges: seq<Charge>, today: Date)
    requires today.Valid() && NoneAborts(charges)
    ensures |ExpectedRows(charges, today)| + |SkippedEntries(charges)| == |charges|
    decreases |charges|
  {
    if charges != [] {
      assert forall k :: 0 <= k < |charges| - 1 ==> charges[1..][k] == charges[k + 1];
      RowsPlusEntries(charges[1..], today);
    }
  }

  /** Every row a conversion writes has all seven columns filled, the constant detail code,
      a description that fits its column, and the run's own effective date and billing term. */
  lemma {:induction false} RowsWellFormed(charges: seq<Charge>, today: Date)
    requires today.Valid() && !Run(charges, today).failed
    ensures forall r <- Run(charges, today).rows ::
              (forall f <- r.Fields() :: f != "")
              && r.detailCode == DetailCode && |r.description| <= DescriptionLimit
              && r.effectiveDate == FormatEffectiveDate(today) && r.billingTerm == BillingTerm(today)
  {
    RunMeetsReference(charges, today);
    ExpectedRowsWellFormed(charges, today);
  }

  lemma {:induction false} ExpectedRowsWellFormed(charges: seq<Charge>, today: Date)
    requires today.Valid()
    ensures forall r <- ExpectedRows(charges, today) ::
              (forall f <- r.Fields() :: f != "")
              && r.detailCode == DetailCode && |r.description| <= DescriptionLimit
              && r.effectiveDate == FormatEffectiveDate(today) && r.billingTerm == BillingTerm(today)
    decreases |charges|
  {
    if charges != [] {
      ExpectedRowsWellFormed(charges[1..], today);
    }
  }

  /** A patron without fees contributes nothing and is never checked, even without id or name. */
  lemma FeelessPatronIgnored(before: seq<User>, id: Option<string>, name: Option<string>,
                             after: seq<User>, today: Date)
    requires today.Valid()
    ensures Convert(before + [User(id, name, [])] + after, today) == Convert(before + after, today)
  {
    var u := User(id, name, []);
    ChargesAppend(before + [u], after);
    ChargesAppend(before, [u]);
    ChargesAppend(before, after);
    assert [u][..0] == [];
    assert ChargesOf(u, u.fees) == [];
    assert Charges([u]) == [];
    assert Charges(before) + Charges([u]) == Charges(before);
  }

  /** Changing one fee of a known type into an unknown type, in a conversion that goes through,
      removes one row and adds one log entry naming the fee's transaction. */
  lemma UnknownTypeDropsOneRow(before: seq<Charge>, c: Charge, d: Charge, after: seq<Charge>, today: Date)
    requires today.Valid() && Recognized(c) && !Recognized(d)
    requires !Run(before + [c] + after, today).failed
    ensures !Run(before + [d] + after, today).failed
    ensures |Run(before + [d] + after, today).rows| == |Run(before + [c] + after, today).rows| - 1
    ensures |Run(before + [d] + after, today).log| == |Run(before + [c] + after, today).log| + 1
    ensures SkipEntry(d.fee.transactionId, UnrecognizedFeeType(d.fee.feeType)) in Run(before + [d] + after, today).log
  {
    var withC, withD := before + [c] + after, before + [d] + after;
    RunMeetsReference(withC, today);
    RunMeetsReference(withD, today);
    forall k | 0 <= k < |withD| ensures !Aborts(withD[k]) {
      if k != |before| {
        assert withD[k] == withC[k];
      }
    }
    assert withC[|before|] == c;
    AroundOne(before, c, after, today);
    AroundOne(before, d, after, today);
    assert [d][1..] == [] && [c][1..] == [];
    assert ExpectedRows([c], today) == [RowFor(c, today)] && ExpectedRows([d], today) == [];
    assert SkippedEntries([c]) == [] && |SkippedEntries([d])| == 1;
  }

  /** The reference definitions split around one fee. */
  lemma AroundOne(before: seq<Charge>, c: Charge, after: seq<Charge>, today: Date)
    requires today.Valid()
    ensures ExpectedRows(before + [c] + after, today)
            == ExpectedRows(before, today) + ExpectedRows([c], today) + ExpectedRows(after, today)
    ensures SkippedEntries(before + [c] + after) == SkippedEntries(before) + SkippedEntries([c]) + SkippedEntries(after)
  {
    ExpectedRowsAppend(before + [c], after, today);
    ExpectedRowsAppend(before, [c], today);
    SkippedEntriesAppend(before + [c], after);
    SkippedEntriesAppend(before, [c]);
  }
}
