/**
 * The per-employee aggregation: every absence row is charged its business
 * days and given its description, the rows are grouped by registration
 * number (ascending, rows without one are dropped), each group keeps its
 * first name, sums its days and joins its descriptions with " & ", the
 * entitlement is the month's work days less the total, clipped at zero,
 * and employees with nothing charged are left out of the result.
 */
module Benefits {
  import opened Wrappers
  import opened Calendar
  import opened Text
  import opened Records
  import opened BusinessDays
  import opened Justification

  /** A computed row is consistent when it has a description exactly when it is charged, and the description can be joined. */
  predicate Consistent(c: Charged) {
    (c.description.None? <==> c.days == 0) &&
    (c.description.Some? ==> c.description.value != [] && '&' !in c.description.value)
  }

  predicate AllConsistent(rows: seq<Charged>) {
    forall i :: 0 <= i < |rows| ==> Consistent(rows[i])
  }

  /** The row with its two computed columns. */
  function ChargeRow(row: Absence, holidays: seq<Day>): (c: Charged)
    ensures c.id == row.id && c.name == row.name && c.days == ChargeableDays(row.start, row.ret, holidays)
    ensures c.description == Describe(row, c.days)
    ensures Consistent(c)
  {
    var days := ChargeableDays(row.start, row.ret, holidays);
    Charged(row.id, row.name, days, Describe(row, days))
  }

  /** The two df.apply calls: every row of the sheet, with its days and description. */
  function Annotate(sheet: seq<Absence>, holidays: seq<Day>): (rows: seq<Charged>)
    ensures |rows| == |sheet|
    ensures forall i :: 0 <= i < |sheet| ==> rows[i] == ChargeRow(sheet[i], holidays)
    ensures AllConsistent(rows)
  {
    seq(|sheet|, i requires 0 <= i < |sheet| => ChargeRow(sheet[i], holidays))
  }

  /** Some row carries registration number k. */
  predicate HasId(rows: seq<Charged>, k: int) {
    exists i :: 0 <= i < |rows| && rows[i].id == Some(k)
  }

  predicate StrictlyIncreasing(ids: seq<int>) {
    forall i, j :: 0 <= i < j < |ids| ==> ids[i] < ids[j]
  }

  /** Adds k to an ascending list of distinct numbers, keeping it so. */
  function InsertSorted(ids: seq<int>, k: int): (r: seq<int>)
    requires StrictlyIncreasing(ids)
    ensures StrictlyIncreasing(r)
    ensures forall x :: x in r <==> x in ids || x == k
  {
    if ids == [] then [k]
    else if k < ids[0] then
      IncreasingCons(k, ids);
      [k] + ids
    else if k == ids[0] then ids
    else
      IncreasingTail(ids);
      var rest := InsertSorted(ids[1..], k);
      IncreasingCons(ids[0], rest);
      [ids[0]] + rest
  }

  lemma IncreasingTail(ids: seq<int>)
    requires ids != [] && StrictlyIncreasing(ids)
    ensures StrictlyIncreasing(ids[1..])
    ensures forall x :: x in ids[1..] ==> ids[0] < x
  {
    forall x | x in ids[1..]
      ensures ids[0] < x
    {
      var i :| 0 <= i < |ids[1..]| && ids[1..][i] == x;
      assert x == ids[i + 1];
    }
  }

  lemma IncreasingCons(x: int, ids: seq<int>)
    requires StrictlyIncreasing(ids) && forall y :: y in ids ==> x < y
    ensures StrictlyIncreasing([x] + ids)
  {
    var r := [x] + ids;
    forall i, j | 0 <= i < j < |r|
      ensures r[i] < r[j]
    {
      assert r[j] == ids[j - 1] && ids[j - 1] in ids;
      if i > 0 {
        assert r[i] == ids[i - 1];
      }
    }
  }

  /** The group keys of groupby('MAT.'): the distinct registration numbers, ascending. */
  function EmployeeIds(rows: seq<Charged>): (ids: seq<int>)
    ensures StrictlyIncreasing(ids)
    ensures forall k :: k in ids <==> HasId(rows, k)
  {
    if rows == [] then []
    else
      var rest := EmployeeIds(rows[1..]);
      HasIdCons(rows);
      if rows[0].id.None? then rest else InsertSorted(rest, rows[0].id.value)
  }

  /** A number is carried by some row exactly when the first row or one of the others carries it. */
  lemma HasIdCons(rows: seq<Charged>)
    requires rows != []
    ensures forall k :: HasId(rows, k) <==> rows[0].id == Some(k) || HasId(rows[1..], k)
  {
    forall k
      ensures HasId(rows, k) <==> rows[0].id == Some(k) || HasId(rows[1..], k)
    {
      if HasId(rows, k) {
        var i :| 0 <= i < |rows| && rows[i].id == Some(k);
        if i > 0 {
          assert rows[1..][i - 1].id == Some(k);
        }
      }
      if HasId(rows[1..], k) {
        var i :| 0 <= i < |rows[1..]| && rows[1..][i].id == Some(k);
        assert rows[i + 1].id == Some(k);
      }
    }
  }

  /** The 'sum' of DIAS_UTEIS_DESCONTO over the rows of employee k. */
  function TotalDays(rows: seq<Charged>, k: int): nat {
    if rows == [] then 0
    else (if rows[0].id == Some(k) then rows[0].days else 0) + TotalDays(rows[1..], k)
  }

  /** The 'first' of FUNCIONÁRIO over the rows of employee k: the first name that is not empty. */
  function FirstName(rows: seq<Charged>, k: int): Option<string> {
    if rows == [] then None
    else if rows[0].id == Some(k) && rows[0].name.Some? then rows[0].name
    else FirstName(rows[1..], k)
  }

  /** The descriptions of employee k's rows, in row order, skipping the absent ones. */
  function Descriptions(rows: seq<Charged>, k: int): seq<string> {
    if rows == [] then []
    else
      var d := rows[0].description;
      (if rows[0].id == Some(k) && d.Some? then [d.value] else []) + Descriptions(rows[1..], k)
  }

  /** DIAS_DE_DIREITO: the work days of the month less the days charged, clipped at zero. */
  function EntitledDays(workDays: nat, total: nat): (r: nat)
    ensures r <= workDays
    ensures total <= workDays ==> r + total == workDays
    ensures workDays <= total ==> r == 0
  {
    if total >= workDays then 0 else workDays - total
  }

  /** The line of employee k in the grouped table. */
  function Entry(rows: seq<Charged>, k: int, workDays: nat): Entitlement {
    var total := TotalDays(rows, k);
    Entitlement(k, FirstName(rows, k), total, EntitledDays(workDays, total), Join(Descriptions(rows, k), " & "))
  }

  /** The lines of the given employees, in the given order. */
  function Entries(rows: seq<Charged>, ids: seq<int>, workDays: nat): (es: seq<Entitlement>)
    ensures |es| == |ids|
    ensures forall i :: 0 <= i < |ids| ==> es[i] == Entry(rows, ids[i], workDays)
  {
    if ids == [] then []
    else [Entry(rows, ids[0], workDays)] + Entries(rows, ids[1..], workDays)
  }

  /** The grouped table, one line per registration number, before the zero-total filter. */
  function Grouped(rows: seq<Charged>, workDays: nat): seq<Entitlement> {
    Entries(rows, EmployeeIds(rows), workDays)
  }

  /** Keeps the lines with a positive total, in order. */
  function WithDiscount(es: seq<Entitlement>): (r: seq<Entitlement>)
    ensures |r| <= |es|
    ensures forall e :: e in r <==> e in es && e.totalDays > 0
  {
    if es == [] then []
    else if es[0].totalDays > 0 then [es[0]] + WithDiscount(es[1..])
    else WithDiscount(es[1..])
  }

  /** The grouped lines of the employees who were charged some day. */
  function Summarize(rows: seq<Charged>, workDays: nat): seq<Entitlement> {
    WithDiscount(Grouped(rows, workDays))
  }

  /** The result table of a sheet of absences. */
  function Report(sheet: seq<Absence>, holidays: seq<Day>, workDays: nat): seq<Entitlement> {
    Summarize(Annotate(sheet, holidays), workDays)
  }

  predicate AscendingIds(es: seq<Entitlement>) {
    forall i, j :: 0 <= i < j < |es| ==> es[i].id < es[j].id
  }

  /** Total charged days over a table. */
  function SumTotals(es: seq<Entitlement>): nat {
    if es == [] then 0 else es[0].totalDays + SumTotals(es[1..])
  }

  /** The days charged over all rows that carry a registration number. */
  function IdentifiedDays(rows: seq<Charged>): nat {
    if rows == [] then 0
    else (if rows[0].id.Some? then rows[0].days else 0) + IdentifiedDays(rows[1..])
  }

  /** The totals of the given employees, added up. */
  function IdTotals(rows: seq<Charged>, ids: seq<int>): nat {
    if ids == [] then 0 else TotalDays(rows, ids[0]) + IdTotals(rows, ids[1..])
  }

  // ---------------------------------------------------------------------
  // Properties of the per-employee values

  /** The total of an employee is a sum over rows: splitting the sheet splits the total. */
  lemma {:induction false} TotalDaysAppend(a: seq<Charged>, b: seq<Charged>, k: int)
    ensures TotalDays(a + b, k) == TotalDays(a, k) + TotalDays(b, k)
  {
    if a == [] {
      assert a + b == b;
    } else {
      assert (a + b)[0] == a[0] && (a + b)[1..] == a[1..] + b;
      TotalDaysAppend(a[1..], b, k);
    }
  }

  /** An employee's total is zero exactly when none of the employee's rows is charged a day. */
  lemma {:induction false} TotalDaysZeroIff(rows: seq<Charged>, k: int)
    ensures TotalDays(rows, k) == 0 <==>
            forall i :: 0 <= i < |rows| && rows[i].id == Some(k) ==> rows[i].days == 0
  {
    if rows != [] {
      TotalDaysZeroIff(rows[1..], k);
      assert forall i :: 1 <= i < |rows| ==> rows[i] == rows[1..][i - 1];
    }
  }

  /** An employee with a positive total has a row in the sheet. */
  lemma {:induction false} PositiveTotalHasRow(rows: seq<Charged>, k: int)
    requires TotalDays(rows, k) > 0
    ensures HasId(rows, k)
  {
    TotalDaysZeroIff(rows, k);
  }

  /** The descriptions of an employee follow the rows: splitting the sheet splits the list. */
  lemma {:induction false} DescriptionsAppend(a: seq<Charged>, b: seq<Charged>, k: int)
    ensures Descriptions(a + b, k) == Descriptions(a, k) + Descriptions(b, k)
  {
    if a == [] {
      assert a + b == b;
    } else {
      assert (a + b)[0] == a[0] && (a + b)[1..] == a[1..] + b;
      DescriptionsAppend(a[1..], b, k);
    }
  }

  /** Every description is non-empty and free of ampersands. */
  lemma {:induction false} DescriptionsWellFormed(rows: seq<Charged>, k: int)
    requires AllConsistent(rows)
    ensures forall i :: 0 <= i < |Descriptions(rows, k)| ==>
              Descriptions(rows, k)[i] != [] && '&' !in Descriptions(rows, k)[i]
  {
    if rows != [] {
      ConsistentTail(rows);
      DescriptionsWellFormed(rows[1..], k);
      assert Consistent(rows[0]);
      var d := rows[0].description;
      var head: seq<string> := if rows[0].id == Some(k) && d.Some? then [d.value] else [];
      var tail := Descriptions(rows[1..], k);
      var parts := Descriptions(rows, k);
      assert parts == head + tail;
      forall i | 0 <= i < |parts|
        ensures parts[i] != [] && '&' !in parts[i]
      {
        if i < |head| {
          assert parts[i] == d.value;
        } else {
          assert parts[i] == tail[i - |head|];
        }
      }
    }
  }

  lemma ConsistentTail(rows: seq<Charged>)
    requires rows != [] && AllConsistent(rows)
    ensures AllConsistent(rows[1..])
  {
    forall i | 0 <= i < |rows[1..]|
      ensures Consistent(rows[1..][i])
    {
      assert rows[1..][i] == rows[i + 1];
    }
  }

  /** An employee has some description exactly when the employee's total is positive. */
  lemma {:induction false} DescriptionsNonEmptyIff(rows: seq<Charged>, k: int)
    requires AllConsistent(rows)
    ensures Descriptions(rows, k) != [] <==> TotalDays(rows, k) > 0
  {
    if rows != [] {
      ConsistentTail(rows);
      DescriptionsNonEmptyIff(rows[1..], k);
      assert Consistent(rows[0]);
    }
  }

  /**
   * The name of an employee is the name of the first of the employee's rows
   * that has one, and is absent only when none of them has one.
   */
  lemma {:induction false} FirstNameIsFirst(rows: seq<Charged>, k: int)
    ensures var r := FirstName(rows, k);
            (r.Some? ==> exists i :: 0 <= i < |rows| && rows[i].id == Some(k) && rows[i].name == r &&
                           forall j :: 0 <= j < i && rows[j].id == Some(k) ==> rows[j].name.None?) &&
            (r.None? ==> forall i :: 0 <= i < |rows| && rows[i].id == Some(k) ==> rows[i].name.None?)
  {
    if rows != [] && !(rows[0].id == Some(k) && rows[0].name.Some?) {
      FirstNameIsFirst(rows[1..], k);
      var r := FirstName(rows, k);
      if r.Some? {
        var i :| 0 <= i < |rows[1..]| && rows[1..][i].id == Some(k) && rows[1..][i].name == r &&
                 forall j :: 0 <= j < i && rows[1..][j].id == Some(k) ==> rows[1..][j].name.None?;
        assert rows[i + 1].id == Some(k) && rows[i + 1].name == r;
        forall j | 0 <= j < i + 1 && rows[j].id == Some(k)
          ensures rows[j].name.None?
        {
          if j > 0 {
            assert rows[1..][j - 1] == rows[j];
          }
        }
      } else {
        forall i | 0 <= i < |rows| && rows[i].id == Some(k)
          ensures rows[i].name.None?
        {
          if i > 0 {
            assert rows[1..][i - 1] == rows[i];
          }
        }
      }
    }
  }

  /** Charging more days never raises the entitlement. */
  lemma EntitledDaysAntitone(workDays: nat, t1: nat, t2: nat)
    requires t1 <= t2
    ensures EntitledDays(workDays, t2) <= EntitledDays(workDays, t1)
  {
  }

  // ---------------------------------------------------------------------
  // Properties of the result table

  lemma AscendingCons(x: Entitlement, rest: seq<Entitlement>)
    requires AscendingIds(rest)
    requires forall e :: e in rest ==> x.id < e.id
    ensures AscendingIds([x] + rest)
  {
    var r := [x] + rest;
    forall i, j | 0 <= i < j < |r|
      ensures r[i].id < r[j].id
    {
      assert r[j] == rest[j - 1];
      if i > 0 {
        assert r[i] == rest[i - 1];
      }
    }
  }

  lemma {:induction false} WithDiscountAscending(es: seq<Entitlement>)
    requires AscendingIds(es)
    ensures AscendingIds(WithDiscount(es))
  {
    if es != [] {
      assert AscendingIds(es[1..]) by {
        forall i, j | 0 <= i < j < |es[1..]|
          ensures es[1..][i].id < es[1..][j].id
        {
          assert es[1..][i] == es[i + 1] && es[1..][j] == es[j + 1];
        }
      }
      WithDiscountAscending(es[1..]);
      var rest := WithDiscount(es[1..]);
      if es[0].totalDays > 0 {
        forall e | e in rest
          ensures es[0].id < e.id
        {
          var i :| 0 <= i < |es[1..]| && es[1..][i] == e;
          assert e == es[i + 1];
        }
        AscendingCons(es[0], rest);
      }
    }
  }

  /** Each employee appears at most once in the result, in ascending order of registration number. */
  lemma ReportAscending(rows: seq<Charged>, workDays: nat)
    ensures AscendingIds(Summarize(rows, workDays))
  {
    var g := Grouped(rows, workDays);
    assert AscendingIds(g) by {
      var ids := EmployeeIds(rows);
      forall i, j | 0 <= i < j < |g|
        ensures g[i].id < g[j].id
      {
        assert g[i].id == ids[i] && g[j].id == ids[j];
      }
    }
    WithDiscountAscending(g);
  }

  /**
   * A line of the result is the grouped line of its employee, with a
   * positive total: the first name, the sum of the days, the clipped
   * entitlement and the joined descriptions.
   */
  lemma SummaryLine(rows: seq<Charged>, workDays: nat, e: Entitlement)
    requires e in Summarize(rows, workDays)
    ensures e == Entry(rows, e.id, workDays) && e.totalDays > 0 && HasId(rows, e.id)
  {
    var ids := EmployeeIds(rows);
    var g := Grouped(rows, workDays);
    var i :| 0 <= i < |g| && g[i] == e;
    assert e == Entry(rows, ids[i], workDays);
    assert ids[i] in ids;
  }

  /**
   * An employee is in the result exactly when some row carries the
   * employee's registration number and the employee's total is positive.
   */
  lemma ReportMembership(rows: seq<Charged>, workDays: nat, k: int)
    ensures (exists e :: e in Summarize(rows, workDays) && e.id == k) <==>
            HasId(rows, k) && TotalDays(rows, k) > 0
  {
    var ids := EmployeeIds(rows);
    var g := Grouped(rows, workDays);
    forall e | e in Summarize(rows, workDays)
      ensures e.id == k ==> HasId(rows, k) && TotalDays(rows, k) > 0
    {
      SummaryLine(rows, workDays, e);
    }
    if HasId(rows, k) && TotalDays(rows, k) > 0 {
      var i :| 0 <= i < |ids| && ids[i] == k;
      assert g[i] in g && g[i].id == k;
    }
  }

  /** Every line of the result has a justification, and it is the joined descriptions of the employee's rows. */
  lemma ReportJustification(rows: seq<Charged>, workDays: nat)
    requires AllConsistent(rows)
    ensures forall e :: e in Summarize(rows, workDays) ==>
              e.justification != [] && e.justification == Join(Descriptions(rows, e.id), " & ")
  {
    forall e | e in Summarize(rows, workDays)
      ensures e.justification != [] && e.justification == Join(Descriptions(rows, e.id), " & ")
    {
      SummaryLine(rows, workDays, e);
      DescriptionsNonEmptyIff(rows, e.id);
      DescriptionsWellFormed(rows, e.id);
    }
  }

  /**
   * The justification can be split back at " & " into exactly the
   * employee's descriptions: no description holds an ampersand.
   */
  lemma JustificationSplits(rows: seq<Charged>, workDays: nat, e: Entitlement, parts: seq<string>)
    requires AllConsistent(rows) && e in Summarize(rows, workDays)
    requires forall i :: 0 <= i < |parts| ==> parts[i] != [] && '&' !in parts[i]
    requires Join(parts, " & ") == e.justification
    ensures parts == Descriptions(rows, e.id)
  {
    SummaryLine(rows, workDays, e);
    var ds := Descriptions(rows, e.id);
    assert Join(parts, " & ") == Join(ds, " & ");
    DescriptionsWellFormed(rows, e.id);
    JoinInjective(parts, ds);
  }

  /**
   * The justification of an employee follows the rows: when both parts of
   * a split sheet describe the employee, the joined text is the text of
   * the first part, " & ", then the text of the second.
   */
  lemma JustificationAppend(a: seq<Charged>, b: seq<Charged>, k: int)
    requires Descriptions(a, k) != [] && Descriptions(b, k) != []
    ensures Join(Descriptions(a + b, k), " & ") == Join(Descriptions(a, k), " & ") + " & " + Join(Descriptions(b, k), " & ")
  {
    DescriptionsAppend(a, b, k);
    JoinAppend(Descriptions(a, k), Descriptions(b, k), " & ");
  }

  /** Every entitlement lies between zero and the month's work days. */
  lemma ReportEntitlementBounds(rows: seq<Charged>, workDays: nat)
    ensures forall e :: e in Summarize(rows, workDays) ==>
              e.entitledDays <= workDays && e.entitledDays == (if e.totalDays >= workDays then 0 else workDays - e.totalDays)
  {
    forall e | e in Summarize(rows, workDays)
      ensures e.entitledDays == EntitledDays(workDays, e.totalDays)
    {
      SummaryLine(rows, workDays, e);
    }
  }

  // ---------------------------------------------------------------------
  // Conservation: every charged day of an identified row is counted once

  lemma {:induction false} WithDiscountSum(es: seq<Entitlement>)
    ensures SumTotals(WithDiscount(es)) == SumTotals(es)
  {
    if es != [] {
      WithDiscountSum(es[1..]);
    }
  }

  lemma {:induction false} EntriesSum(rows: seq<Charged>, ids: seq<int>, workDays: nat)
    ensures SumTotals(Entries(rows, ids, workDays)) == IdTotals(rows, ids)
  {
    if ids != [] {
      EntriesSum(rows, ids[1..], workDays);
      assert Entries(rows, ids, workDays)[1..] == Entries(rows, ids[1..], workDays);
    }
  }

  /** Taking off the first row takes its days off the total of its employee, if listed. */
  lemma {:induction false} IdTotalsFirstRow(rows: seq<Charged>, ids: seq<int>)
    requires rows != [] && StrictlyIncreasing(ids)
    ensures IdTotals(rows, ids) ==
            IdTotals(rows[1..], ids) +
            (if rows[0].id.Some? && rows[0].id.value in ids then rows[0].days else 0)
  {
    if ids != [] {
      IdTotalsFirstRow(rows, ids[1..]);
      assert rows[0].id.Some? && rows[0].id.value == ids[0] ==> ids[0] !in ids[1..];
    }
  }

  /** Listing one more employee adds that employee's total. */
  lemma {:induction false} IdTotalsInsert(rows: seq<Charged>, ids: seq<int>, k: int)
    requires StrictlyIncreasing(ids) && k !in ids
    ensures IdTotals(rows, InsertSorted(ids, k)) == IdTotals(rows, ids) + TotalDays(rows, k)
  {
    if ids != [] && k > ids[0] {
      IdTotalsInsert(rows, ids[1..], k);
    }
  }

  lemma {:induction false} InsertPresent(ids: seq<int>, k: int)
    requires StrictlyIncreasing(ids) && k in ids
    ensures InsertSorted(ids, k) == ids
  {
    if k != ids[0] {
      InsertPresent(ids[1..], k);
      assert ids == [ids[0]] + ids[1..];
    }
  }

  lemma {:induction false} GroupTotalsCoverRows(rows: seq<Charged>)
    ensures IdTotals(rows, EmployeeIds(rows)) == IdentifiedDays(rows)
  {
    if rows != [] {
      var tail := rows[1..];
      var rest := EmployeeIds(tail);
      GroupTotalsCoverRows(tail);
      IdTotalsFirstRow(rows, EmployeeIds(rows));
      if rows[0].id.Some? {
        var k := rows[0].id.value;
        assert k in EmployeeIds(rows);
        if k in rest {
          InsertPresent(rest, k);
        } else {
          IdTotalsInsert(tail, rest, k);
          if TotalDays(tail, k) > 0 {
            PositiveTotalHasRow(tail, k);
          }
        }
      }
    }
  }

  /**
   * The totals of the result add up to the days charged over all rows that
   * carry a registration number: no day is lost or counted twice, and only
   * rows without a registration number drop out.
   */
  lemma ReportConservesDays(rows: seq<Charged>, workDays: nat)
    ensures SumTotals(Summarize(rows, workDays)) == IdentifiedDays(rows)
  {
    WithDiscountSum(Grouped(rows, workDays));
    EntriesSum(rows, EmployeeIds(rows), workDays);
    GroupTotalsCoverRows(rows);
  }

  // ---------------------------------------------------------------------
  // The result table of a sheet, stated over the sheet's own rows

  /** The days charged to employee k, added up over the rows of the sheet. */
  function SheetTotal(sheet: seq<Absence>, holidays: seq<Day>, k: int): nat {
    if sheet == [] then 0
    else
      (if sheet[0].id == Some(k) then ChargeableDays(sheet[0].start, sheet[0].ret, holidays) else 0) +
      SheetTotal(sheet[1..], holidays, k)
  }

  /** The descriptions of employee k's charged rows, in the order of the sheet. */
  function SheetDescriptions(sheet: seq<Absence>, holidays: seq<Day>, k: int): seq<string> {
    if sheet == [] then []
    else
      var d := Describe(sheet[0], ChargeableDays(sheet[0].start, sheet[0].ret, holidays));
      (if sheet[0].id == Some(k) && d.Some? then [d.value] else []) + SheetDescriptions(sheet[1..], holidays, k)
  }

  lemma AnnotateCons(sheet: seq<Absence>, holidays: seq<Day>)
    requires sheet != []
    ensures Annotate(sheet, holidays)[0] == ChargeRow(sheet[0], holidays)
    ensures Annotate(sheet, holidays)[1..] == Annotate(sheet[1..], holidays)
  {
  }

  /** Grouping the annotated sheet sums each row's chargeable days. */
  lemma {:induction false} TotalOfSheet(sheet: seq<Absence>, holidays: seq<Day>, k: int)
    ensures TotalDays(Annotate(sheet, holidays), k) == SheetTotal(sheet, holidays, k)
  {
    if sheet != [] {
      AnnotateCons(sheet, holidays);
      TotalOfSheet(sheet[1..], holidays, k);
    }
  }

  /** Grouping the annotated sheet collects each charged row's description, in row order. */
  lemma {:induction false} DescriptionsOfSheet(sheet: seq<Absence>, holidays: seq<Day>, k: int)
    ensures Descriptions(Annotate(sheet, holidays), k) == SheetDescriptions(sheet, holidays, k)
  {
    if sheet != [] {
      AnnotateCons(sheet, holidays);
      DescriptionsOfSheet(sheet[1..], holidays, k);
    }
  }

  /**
   * The result table of a sheet: employee k has a line exactly when the
   * sheet's rows charge k some day, and that line holds the days charged
   * over k's rows, the clipped entitlement, and the descriptions of k's
   * charged rows joined in sheet order.
   */
  lemma ReportOfSheet(sheet: seq<Absence>, holidays: seq<Day>, workDays: nat, k: int)
    ensures (exists e :: e in Report(sheet, holidays, workDays) && e.id == k) <==> SheetTotal(sheet, holidays, k) > 0
    ensures forall e :: e in Report(sheet, holidays, workDays) && e.id == k ==>
              e.totalDays == SheetTotal(sheet, holidays, k) &&
              e.entitledDays == EntitledDays(workDays, SheetTotal(sheet, holidays, k)) &&
              e.justification != [] &&
              e.justification == Join(SheetDescriptions(sheet, holidays, k), " & ")
  {
    var rows := Annotate(sheet, holidays);
    TotalOfSheet(sheet, holidays, k);
    DescriptionsOfSheet(sheet, holidays, k);
    ReportMembership(rows, workDays, k);
    if TotalDays(rows, k) > 0 {
      PositiveTotalHasRow(rows, k);
    }
    ReportJustification(rows, workDays);
    forall e | e in Report(sheet, holidays, workDays) && e.id == k
      ensures e == Entry(rows, k, workDays)
    {
      SummaryLine(rows, workDays, e);
    }
  }

  // ---------------------------------------------------------------------
  // A worked case

  /**
   * Two rows of employee 100 charged 2 and 3 days, in a month of 21 work
   * days: one line with 5 days charged, 16 days of entitlement, and the two
   * descriptions joined in row order.
   */
  lemma TwoRowsOneEmployee(c1: Charged, c2: Charged)
    requires c1.id == Some(100) && c2.id == Some(100) && c1.days == 2 && c2.days == 3
    requires c1.description.Some? && c2.description.Some?
    ensures Summarize([c1, c2], 21) ==
              [Entitlement(100, if c1.name.Some? then c1.name else c2.name, 5, 16, c1.description.value + " & " + c2.description.value)]
  {
    var rows := [c1, c2];
    assert rows[1..] == [c2] && rows[1..][1..] == [];
    assert EmployeeIds([c2]) == InsertSorted([], 100) == [100];
    assert EmployeeIds(rows) == InsertSorted([100], 100) == [100];
    assert Descriptions([c2], 100) == [c2.description.value] + Descriptions([], 100);
    assert Descriptions(rows, 100) == [c1.description.value] + Descriptions([c2], 100)
                                   == [c1.description.value, c2.description.value];
    assert TotalDays(rows, 100) == 5 by {
      assert TotalDays([c2], 100) == 3 + TotalDays([], 100);
    }
    assert FirstName(rows, 100) == if c1.name.Some? then c1.name else c2.name by {
      assert FirstName([c2], 100) == if c2.name.Some? then c2.name else FirstName([], 100);
    }
    var j := c1.description.value + " & " + c2.description.value;
    assert Join([c1.description.value, c2.description.value], " & ") == j by {
      assert [c1.description.value, c2.description.value][1..] == [c2.description.value];
    }
    var e := Entitlement(100, if c1.name.Some? then c1.name else c2.name, 5, 16, j);
    assert Entry(rows, 100, 21) == e;
    assert Grouped(rows, 21) == Entries(rows, [100], 21) == [e];
    assert WithDiscount([e]) == [e] + WithDiscount([]);
  }
}
