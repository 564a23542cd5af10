/**
 * The run's as-of date and the two columns derived from it: the billing term
 * (`billing_term`) and the effective date (`strftime("%m/%d/%Y")`).
 */
module BillingTerms {
  import opened Wrappers
  import opened Decimal

  predicate IsLeapYear(year: int)
  {
    year % 4 == 0 && (year % 100 != 0 || year % 400 == 0)
  }

  function DaysInMonth(year: int, month: int): int
  {
    if month == 2 then (if IsLeapYear(year) then 29 else 28)
    else if month in {4, 6, 9, 11} then 30
    else 31
  }

  /** A calendar date as Python's `datetime.date` holds it. */
  datatype Date = Date(year: int, month: int, day: int) {
    /** The range `datetime.date` enforces on construction. */
    predicate Valid()
    {
      1 <= year <= 9999 && 1 <= month <= 12 && 1 <= day <= DaysInMonth(year, month)
    }
  }

  datatype Season = Fall | Spring | Summer

  /** A billing term: the two-letter season code and the year it is filed under. */
  datatype Term = Term(year: nat, season: Season)

  function SeasonCode(s: Season): string
  {
    match s
    case Fall => "FA"
    case Spring => "SP"
    case Summer => "SU"
  }

  function SeasonOfCode(code: string): Option<Season>
  {
    if code == "FA" then Some(Fall)
    else if code == "SP" then Some(Spring)
    else if code == "SU" then Some(Summer)
    else None
  }

  /** The term a date falls in: January and February close the fall term of their own
      year, March to June are spring, July and August summer, and September onwards
      opens the fall term filed under the following year. */
  function TermFor(today: Date): Term
    requires today.Valid()
  {
    var year := today.year;
    var month := today.month;
    if month in [1, 2] then Term(year, Fall)
    else if month in [3, 4, 5, 6] then Term(year, Spring)
    else if month in [7, 8] then Term(year, Summer)
    else Term(year + 1, Fall)
  }

  /** Reads a term code `{year}{season}` back. */
  function ParseTermCode(code: string): Option<Term>
  {
    if |code| < 3 then None
    else
      var digits := code[..|code| - 2];
      var season := SeasonOfCode(code[|code| - 2..]);
      if AllDigits(digits) && season.Some? then Some(Term(DigitsValue(digits), season.value))
      else None
  }

  /** The text of a term code, `f"{term_year}{term_code}"`; it always reads back as the term. */
  function TermCode(t: Term): (code: string)
    ensures ParseTermCode(code) == Some(t)
  {
    var digits := NatToString(t.year);
    var code := digits + SeasonCode(t.season);
    NatToStringRoundTrip(t.year);
    assert code[..|code| - 2] == digits;
    assert code[|code| - 2..] == SeasonCode(t.season);
    code
  }

  /** `billing_term(today)`. */
  function BillingTerm(today: Date): (code: string)
    requires today.Valid()
    ensures ParseTermCode(code) == Some(TermFor(today))
    ensures |code| >= 3
  {
    TermCode(TermFor(today))
  }

  /** `today.strftime("%m/%d/%Y")`. */
  function FormatEffectiveDate(today: Date): (text: string)
    requires today.Valid()
    ensures |text| == 10
    ensures ParseEffectiveDate(text) == Some(today)
  {
    var mm := ZeroPad(today.month, 2);
    var dd := ZeroPad(today.day, 2);
    var yyyy := ZeroPad(today.year, 4);
    assert Pow10(2) == 100 && Pow10(4) == 10000;
    ZeroPadWidth(today.month, 2);
    ZeroPadWidth(today.day, 2);
    ZeroPadWidth(today.year, 4);
    ZeroPadRoundTrip(today.month, 2);
    ZeroPadRoundTrip(today.day, 2);
    ZeroPadRoundTrip(today.year, 4);
    var text := mm + "/" + dd + "/" + yyyy;
    assert text[..2] == mm && text[3..5] == dd && text[6..] == yyyy;
    text
  }

  /** Reads an `MM/DD/YYYY` date back. */
  function ParseEffectiveDate(text: string): Option<Date>
  {
    if |text| != 10 || text[2] != '/' || text[5] != '/' then None
    else if !(AllDigits(text[..2]) && AllDigits(text[3..5]) && AllDigits(text[6..])) then None
    else
      var d := Date(DigitsValue(text[6..]), DigitsValue(text[..2]), DigitsValue(text[3..5]));
      if d.Valid() then Some(d) else None
  }

  /** Position of a term in the sequence of terms: fall, spring and summer of one year, then fall of the next. */
  function TermRank(t: Term): int
  {
    3 * t.year + match t.season case Fall => 0 case Spring => 1 case Summer => 2
  }

  /** Position of a month in the calendar, counting from year 0. */
  function MonthIndex(d: Date): int
  {
    12 * d.year + d.month - 1
  }

  /** The billing-term policy, month by month. */
  lemma BillingTermTable(today: Date)
    requires today.Valid()
    ensures today.month <= 2 ==> BillingTerm(today) == NatToString(today.year) + "FA"
    ensures 3 <= today.month <= 6 ==> BillingTerm(today) == NatToString(today.year) + "SP"
    ensures 7 <= today.month <= 8 ==> BillingTerm(today) == NatToString(today.year) + "SU"
    ensures 9 <= today.month ==> BillingTerm(today) == NatToString(today.year + 1) + "FA"
  {
  }

  /** The term depends on the month and the year only, never on the day. */
  lemma BillingTermIgnoresDay(a: Date, b: Date)
    requires a.Valid() && b.Valid()
    requires a.year == b.year && a.month == b.month
    ensures BillingTerm(a) == BillingTerm(b)
  {
  }

  /** Terms never go backwards as the calendar advances. */
  lemma TermMonotone(a: Date, b: Date)
    requires a.Valid() && b.Valid()
    requires MonthIndex(a) <= MonthIndex(b)
    ensures TermRank(TermFor(a)) <= TermRank(TermFor(b))
  {
  }

  /** From one month to the next the term either stays or moves to the very next term: none is skipped. */
  lemma TermAdvancesByAtMostOne(a: Date, b: Date)
    requires a.Valid() && b.Valid()
    requires MonthIndex(b) == MonthIndex(a) + 1
    ensures TermRank(TermFor(b)) - TermRank(TermFor(a)) in {0, 1}
  {
  }

  /** The term code always names the current year or, from September, the next one. */
  lemma TermYearIsCurrentOrNext(today: Date)
    requires today.Valid()
    ensures var t := ParseTermCode(BillingTerm(today)).value;
            t.year == (if today.month >= 9 then today.year + 1 else today.year)
  {
  }

  lemma Year2023Spelling()
    ensures NatToString(2023) == "2023" && NatToString(2024) == "2024"
  {
    assert NatToString(2) == "2";
    assert NatToString(20) == "20";
    assert NatToString(202) == "202";
  }

  /** Dates of the test suite, evaluated by the code's table (the tests expect "2023SP" for January). */
  lemma BillingTermExamples()
    ensures BillingTerm(Date(2023, 1, 1)) == "2023FA"
    ensures BillingTerm(Date(2023, 3, 1)) == "2023SP"
    ensures BillingTerm(Date(2023, 8, 1)) == "2023SU"
    ensures BillingTerm(Date(2023, 9, 1)) == "2024FA"
  {
    Year2023Spelling();
    assert TermFor(Date(2023, 1, 1)) == Term(2023, Fall);
    assert TermFor(Date(2023, 3, 1)) == Term(2023, Spring);
    assert TermFor(Date(2023, 8, 1)) == Term(2023, Summer);
    assert TermFor(Date(2023, 9, 1)) == Term(2024, Fall);
  }

  /** The effective date of the test suite's run. */
  lemma EffectiveDateExample()
    ensures FormatEffectiveDate(Date(2023, 3, 1)) == "03/01/2023"
  {
    assert ZeroPad(3, 2) == "03";
    assert ZeroPad(1, 2) == "01";
    Year2023Spelling();
  }
}
