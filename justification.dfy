/**
 * The justification text of one absence (criar_descricao_afastamento):
 * nothing when no day is charged, otherwise the kind of leave, the number
 * of days, and the first and last day absent.
 */
module Justification {
  import opened Wrappers
  import opened Calendar
  import opened Text
  import opened Records

  datatype Category = Tre | BereavementLeave | NursingLeave | MedicalCertificate

  function Label(c: Category): (r: string)
    ensures r != [] && '&' !in r
  {
    match c
    case Tre => "TRE"
    case BereavementLeave => "LICENÇA NOJO"
    case NursingLeave => "ALEITAMENTO MATERNO"
    case MedicalCertificate => "ATESTADO MÉDICO"
  }

  /** str() of the reason cell: an empty cell (NaN) reads "nan". */
  function ReasonText(reason: Option<string>): (r: string)
    ensures reason.Some? ==> r == reason.value
    ensures reason.None? ==> r == "nan"
  {
    if reason.None? then "nan" else reason.value
  }

  /** The kind of leave, by keyword in the upper-cased reason, first match wins. */
  function Classify(reason: string): (c: Category)
    ensures c == Tre <==> Contains(Upper(reason), "TRE")
    ensures c == BereavementLeave <==> !Contains(Upper(reason), "TRE") && Contains(Upper(reason), "NOJO")
    ensures c == NursingLeave <==>
              !Contains(Upper(reason), "TRE") && !Contains(Upper(reason), "NOJO") && Contains(Upper(reason), "ALEITAMENTO")
  {
    var motive := Upper(reason);
    if Contains(motive, "TRE") then Tre
    else if Contains(motive, "NOJO") then BereavementLeave
    else if Contains(motive, "ALEITAMENTO") then NursingLeave
    else MedicalCertificate
  }

  /** "1 DIA" or "N DIAS". */
  function DaysText(n: nat): (r: string)
    ensures DecimalString(n) + " DIA" <= r
    ensures r == DecimalString(n) + " DIA" <==> n == 1
    ensures n != 1 ==> |r| == |DecimalString(n)| + 5 && r[|r| - 1] == 'S'
    ensures '&' !in r
  {
    if n == 1 then "1 DIA" else DecimalString(n) + " DIAS"
  }

  /** Any count other than one reads "{N} DIAS". */
  lemma DaysTextPlural(n: nat)
    requires n != 1
    ensures DaysText(n) == DecimalString(n) + " DIAS"
  {
    var r, d := DaysText(n), DecimalString(n);
    assert r[..|d| + 4] == d + " DIA";
    assert r == r[..|d| + 4] + [r[|r| - 1]];
  }

  /** strftime('%d/%m') */
  function DayMonthText(dt: Date): (r: string)
    requires ValidDate(dt)
    ensures |r| == 5 && r[2] == '/'
    ensures AllDigits(r[..2]) && DecimalValue(r[..2]) == dt.day
    ensures AllDigits(r[3..]) && DecimalValue(r[3..]) == dt.month
    ensures '&' !in r
  {
    var r := Pad2(dt.day) + "/" + Pad2(dt.month);
    assert r[..2] == Pad2(dt.day) && r[3..] == Pad2(dt.month);
    r
  }

  /** strftime('%d/%m/%Y') */
  function DayMonthYearText(dt: Date): (r: string)
    requires ValidDate(dt)
    ensures |r| > 6 && r[..5] == DayMonthText(dt) && r[5] == '/'
    ensures AllDigits(r[6..]) && DecimalValue(r[6..]) == dt.year
    ensures '&' !in r
  {
    var r := DayMonthText(dt) + "/" + DecimalString(dt.year);
    assert r[..5] == DayMonthText(dt) && r[6..] == DecimalString(dt.year);
    r
  }

  /**
   * The period of an absence: its first day as dd/mm, then the day before
   * the return as dd/mm/yyyy.
   */
  function Period(start: Day, ret: Day): (r: string)
    requires start < ret
    ensures |r| > 9 && r[..5] == DayMonthText(CivilFromOrdinal(start)) && r[5..8] == " A "
    ensures r[8..] == DayMonthYearText(CivilFromOrdinal(ret - 1))
    ensures '&' !in r
  {
    var r := DayMonthText(CivilFromOrdinal(start)) + " A " + DayMonthYearText(CivilFromOrdinal(ret - 1));
    assert r[..5] == DayMonthText(CivilFromOrdinal(start)) && r[5..8] == " A ";
    assert r[8..] == DayMonthYearText(CivilFromOrdinal(ret - 1));
    r
  }

  /**
   * The description of one absence row, given the days charged for it:
   * absent when no day is charged, otherwise
   * "{kind} DE {days} - {start dd/mm} A {return - 1 day, dd/mm/yyyy}".
   */
  function Describe(row: Absence, days: nat): (r: Option<string>)
    requires days > 0 ==> row.start.Some? && row.ret.Some? && row.start.value < row.ret.value
    ensures r.None? <==> days == 0
    ensures r.Some? ==> r.value != [] && '&' !in r.value
    ensures r.Some? ==> Label(Classify(ReasonText(row.reason))) + " DE " <= r.value
  {
    if days == 0 then None
    else
      var kind := Label(Classify(ReasonText(row.reason)));
      Some(kind + " DE " + DaysText(days) + " - " + Period(row.start.value, row.ret.value))
  }

  /**
   * Classification is by occurrence of the keywords anywhere in the
   * upper-cased reason, in the fixed priority TRE, NOJO, ALEITAMENTO.
   */
  lemma ClassifyByOccurrence(reason: string)
    ensures var motive := Upper(reason);
            Classify(reason) ==
              if exists i :: OccursAt(motive, "TRE", i) then Tre
              else if exists i :: OccursAt(motive, "NOJO", i) then BereavementLeave
              else if exists i :: OccursAt(motive, "ALEITAMENTO", i) then NursingLeave
              else MedicalCertificate
  {
    var motive := Upper(reason);
    ContainsIff(motive, "TRE");
    ContainsIff(motive, "NOJO");
    ContainsIff(motive, "ALEITAMENTO");
  }

  /** Reasons that differ only in letter case are classified alike. */
  lemma ClassifyIgnoresCase(a: string, b: string)
    requires Upper(a) == Upper(b)
    ensures Classify(a) == Classify(b)
    ensures Classify(Upper(a)) == Classify(a)
  {
    UpperIdempotent(a);
  }

  /** A keyword inside a longer word counts: a stress diagnosis reads as TRE. */
  lemma ClassifyInsideWord()
    ensures Classify("Estresse") == Tre
  {
    assert Upper("Estresse") == "ESTRESSE";
    assert "TRE" <= "ESTRESSE"[2..];
  }

  /** TRE takes priority over NOJO. */
  lemma ClassifyPriority()
    ensures Classify("nojo - TRE") == Tre
  {
    assert Upper("nojo - TRE") == "NOJO - TRE";
    assert "TRE" <= "NOJO - TRE"[7..];
  }

  /** An empty reason cell reads "nan", which names no keyword: a medical certificate. */
  lemma ClassifyEmptyReason()
    ensures Classify(ReasonText(None)) == MedicalCertificate
  {
    assert Upper("nan") == "NAN";
    MissingCharNotContained("NAN", "TRE", 'T');
    MissingCharNotContained("NAN", "NOJO", 'O');
    MissingCharNotContained("NAN", "ALEITAMENTO", 'L');
  }

  /** The period of an absence given by its calendar dates: the last day shown is the day before the return. */
  lemma PeriodOfDates(first: Date, back: Date)
    requires ValidDate(first) && ValidDate(back) && OrdinalOf(first) < OrdinalOf(back)
    ensures Period(OrdinalOf(first), OrdinalOf(back)) == DayMonthText(first) + " A " + DayMonthYearText(DayBefore(back))
  {
    CivilRoundTrip(first);
    PreviousDay(back);
  }

  /** The description of an absence given by its calendar dates. */
  lemma DescribeOfDates(row: Absence, days: nat, first: Date, back: Date)
    requires ValidDate(first) && ValidDate(back) && OrdinalOf(first) < OrdinalOf(back)
    requires row.start == Some(OrdinalOf(first)) && row.ret == Some(OrdinalOf(back)) && days > 0
    ensures Describe(row, days) ==
              Some(Label(Classify(ReasonText(row.reason))) + " DE " + DaysText(days) + " - " +
                   (DayMonthText(first) + " A " + DayMonthYearText(DayBefore(back))))
  {
    PeriodOfDates(first, back);
  }

  // The worked cases below are assembled from small pieces: the date texts,
  // the head of each text, and the final concatenation of literals. Each
  // piece is a lemma of its own so that the solver meets one short equation
  // between string literals at a time; asserted inline, they share one proof
  // context and the concatenations become expensive.

  lemma TwoDayPeriod()
    ensures DayMonthText(Date(2024, 3, 4)) + " A " + DayMonthYearText(DayBefore(Date(2024, 3, 6))) == "04/03 A 05/03/2024"
  {
    assert DayBefore(Date(2024, 3, 6)) == Date(2024, 3, 5);
    assert DecimalString(2024) == "2024";
  }

  lemma OneDayPeriod()
    ensures DayMonthText(Date(2024, 3, 8)) + " A " + DayMonthYearText(DayBefore(Date(2024, 3, 11))) == "08/03 A 10/03/2024"
  {
    assert DayBefore(Date(2024, 3, 11)) == Date(2024, 3, 10);
    assert DecimalString(2024) == "2024";
  }

  lemma TwoDayJoin()
    ensures "ATESTADO MÉDICO DE 2 DIAS - " + "04/03 A 05/03/2024" == "ATESTADO MÉDICO DE 2 DIAS - 04/03 A 05/03/2024"
  {
  }

  lemma OneDayJoin()
    ensures "TRE DE 1 DIA - " + "08/03 A 10/03/2024" == "TRE DE 1 DIA - 08/03 A 10/03/2024"
  {
  }

  lemma OneDayHead()
    ensures Label(Tre) + " DE " + DaysText(1) + " - " == "TRE DE 1 DIA - "
  {
  }

  lemma TwoDayHead()
    ensures Label(MedicalCertificate) + " DE " + DaysText(2) + " - " == "ATESTADO MÉDICO DE 2 DIAS - "
  {
    assert DaysText(2) == "2 DIAS";
  }

  /**
   * Leave from Monday 4 March 2024, back on Wednesday 6 March, with an
   * empty reason cell: a two-day medical certificate whose last day is
   * Tuesday 5 March.
   */
  lemma DescribeTwoDays(row: Absence)
    requires row.start == Some(OrdinalOf(Date(2024, 3, 4))) && row.ret == Some(OrdinalOf(Date(2024, 3, 6)))
    requires row.reason == None
    ensures Describe(row, 2) == Some("ATESTADO MÉDICO DE 2 DIAS - 04/03 A 05/03/2024")
  {
    DescribeOfDates(row, 2, Date(2024, 3, 4), Date(2024, 3, 6));
    ClassifyEmptyReason();
    TwoDayHead();
    TwoDayPeriod();
    TwoDayJoin();
  }

  /**
   * Leave on Friday 8 March 2024, back on Monday 11 March, for the
   * electoral court: one day, and the last day shown is Sunday 10 March,
   * the day before the return.
   */
  lemma DescribeOneDay(row: Absence)
    requires row.start == Some(OrdinalOf(Date(2024, 3, 8))) && row.ret == Some(OrdinalOf(Date(2024, 3, 11)))
    requires row.reason == Some("nojo - TRE")
    ensures Describe(row, 1) == Some("TRE DE 1 DIA - 08/03 A 10/03/2024")
  {
    DescribeOfDates(row, 1, Date(2024, 3, 8), Date(2024, 3, 11));
    ClassifyPriority();
    OneDayHead();
    OneDayPeriod();
    OneDayJoin();
  }
}
