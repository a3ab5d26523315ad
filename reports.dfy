/** The period report of src/pages/Reports.jsx: the window of a month or a
    year, the query for it, the IN and OUT totals and the count over what
    the query returns, the period label and the file name of the PDF. */
module Reports {
  import opened Js
  import opened JsStrings
  import opened Records
  import Calendar
  import Seqs
  import Db

  /** The Albanian month names, January first. */
  const Months: seq<string> := [
    "Janar", "Shkurt", "Mars", "Prill", "Maj", "Qershor",
    "Korrik", "Gusht", "Shtator", "Tetor", "Nëntor", "Dhjetor"]

  /** The two choices of the report-type select. */
  datatype ReportType = Monthly | Yearly

  /** What `loadReport` puts in the page state. */
  datatype Summary = Summary(
    totalIn: real,
    totalOut: real,
    count: nat,
    transactions: seq<Transaction>,
    period: string)

  // Totals

  /** `reduce((s, tx) => s + (tx.totalValue || 0), 0)`: a NaN total counts
      as 0. */
  function ValueSum(s: seq<Transaction>): real {
    if s == [] then 0.0 else ValueSum(s[..|s| - 1]) + OrZero(s[|s| - 1].totalValue)
  }

  /** `list.filter((tx) => tx.type === k).reduce(...)`: nothing of type
      `k` totals 0, and a list all of type `k` totals its whole sum. */
  function Total(list: seq<Transaction>, k: TxType): (r: real)
    ensures (forall i :: 0 <= i < |list| ==> list[i].kind != k) ==> r == 0.0
    ensures (forall i :: 0 <= i < |list| ==> list[i].kind == k) ==> r == ValueSum(list)
  {
    var keep := (t: Transaction) => t.kind == k;
    if forall i :: 0 <= i < |list| ==> list[i].kind == k then
      Seqs.FilterAll(list, keep);
      ValueSum(Seqs.Filter(list, keep))
    else
      var kept := Seqs.Filter(list, keep);
      assert (forall i :: 0 <= i < |list| ==> list[i].kind != k) ==> kept == [] by {
        if kept != [] {
          assert kept[0] in kept;
        }
      }
      ValueSum(kept)
  }


  /** What one transaction adds to the `k` total. */
  function Contribution(t: Transaction, k: TxType): real {
    if t.kind == k then OrZero(t.totalValue) else 0.0
  }

  /** A reference definition of the `k` total, in one pass over the list. */
  function ConditionalSum(list: seq<Transaction>, k: TxType): real {
    if list == [] then 0.0
    else ConditionalSum(list[..|list| - 1], k) + Contribution(list[|list| - 1], k)
  }

  lemma {:induction false} ValueSumConcat(a: seq<Transaction>, b: seq<Transaction>)
    ensures ValueSum(a + b) == ValueSum(a) + ValueSum(b)
    decreases |b|
  {
    if b == [] {
      assert a + b == a;
    } else {
      assert (a + b)[..|a + b| - 1] == a + b[..|b| - 1];
      ValueSumConcat(a, b[..|b| - 1]);
    }
  }

  /** Filtering by type and then summing is summing each transaction's
      contribution to that type. */
  lemma {:induction false} TotalIsConditionalSum(list: seq<Transaction>, k: TxType)
    ensures Total(list, k) == ConditionalSum(list, k)
  {
    if list != [] {
      var init, last := list[..|list| - 1], list[|list| - 1];
      var keep := (t: Transaction) => t.kind == k;
      assert list == init + [last];
      Seqs.FilterConcat(init, [last], keep);
      assert [last][1..] == [];
      ValueSumConcat(Seqs.Filter(init, keep), Seqs.Filter([last], keep));
      if last.kind == k {
        assert ValueSum([last]) == OrZero(last.totalValue) by {
          assert [last][..0] == [];
        }
      }
      TotalIsConditionalSum(init, k);
    }
  }

  /** The totals of a list appended to another add up. */
  lemma TotalConcat(a: seq<Transaction>, b: seq<Transaction>, k: TxType)
    ensures Total(a + b, k) == Total(a, k) + Total(b, k)
  {
    var keep := (t: Transaction) => t.kind == k;
    Seqs.FilterConcat(a, b, keep);
    ValueSumConcat(Seqs.Filter(a, keep), Seqs.Filter(b, keep));
  }

  /** Every transaction counts in exactly one of the two totals, so IN plus
      OUT is the sum of all total values. */
  lemma {:induction false} TotalsPartition(list: seq<Transaction>)
    ensures Total(list, IN) + Total(list, OUT) == ValueSum(list)
  {
    TotalIsConditionalSum(list, IN);
    TotalIsConditionalSum(list, OUT);
    ConditionalSumsPartition(list);
  }

  lemma {:induction false} ConditionalSumsPartition(list: seq<Transaction>)
    ensures ConditionalSum(list, IN) + ConditionalSum(list, OUT) == ValueSum(list)
  {
    if list != [] {
      ConditionalSumsPartition(list[..|list| - 1]);
    }
  }

  /** A transaction whose total is NaN (posted without a price) leaves both
      totals as they were. */
  lemma NaNCountsAsZero(list: seq<Transaction>, t: Transaction, k: TxType)
    requires t.totalValue == NaN
    ensures Total(list + [t], k) == Total(list, k)
  {
    TotalIsConditionalSum(list + [t], k);
    TotalIsConditionalSum(list, k);
    assert (list + [t])[..|list + [t]| - 1] == list;
  }

  // Period label and file name

  /** The `period` label: month name and year for a monthly report, the
      year alone for a yearly one. */
  function Period(rt: ReportType, month: int, year: nat): (r: string)
    requires rt == Monthly ==> 1 <= month <= 12
    ensures r != []
    ensures rt == Yearly ==> forall k :: 0 <= k < |r| ==> IsDigit(r[k])
    ensures rt == Monthly ==> |Months[month - 1]| < |r| && r[|Months[month - 1]|] == ' '
  {
    match rt
    case Monthly => Months[month - 1] + " " + Decimal(year)
    case Yearly => Decimal(year)
  }

  /** `Raport_${period.replace(/\s/g, '_')}.pdf`. */
  function PdfFileName(period: string): (r: string)
    ensures |r| == |period| + 11
    ensures forall k :: 0 <= k < |r| ==> !IsSpace(r[k])
  {
    var r := "Raport_" + ReplaceSpaces(period, '_') + ".pdf";
    assert forall k :: 0 <= k < |r| ==> !IsSpace(r[k]) by {
      forall k | 0 <= k < |r| ensures !IsSpace(r[k]) {
        if 7 <= k < 7 + |period| {
          assert r[k] == ReplaceSpaces(period, '_')[k - 7];
        }
      }
    }
    r
  }

  predicate NoSpace(s: string) {
    forall k :: 0 <= k < |s| ==> !IsSpace(s[k])
  }

  lemma MonthNamesHaveNoSpace(m: int)
    requires 1 <= m <= 12
    ensures NoSpace(Months[m - 1])
  {
  }

  /** The twelve names differ. */

  lemma MonthNamesDistinct(m1: int, m2: int)
    requires 1 <= m1 <= 12 && 1 <= m2 <= 12 && m1 != m2
    ensures Months[m1 - 1] != Months[m2 - 1]
  {
  }

  lemma DecimalHasNoSpace(n: nat)
    ensures NoSpace(Decimal(n))
  {
    var d := Decimal(n);
    forall k | 0 <= k < |d| ensures !IsSpace(d[k]) {
      assert IsDigit(d[k]);
    }
  }

  /** The label can be read back: a monthly label is the month's name, a
      space and the year's digits; a yearly label is the year's digits. */
  lemma PeriodReadsBack(rt: ReportType, month: int, year: nat)
    requires rt == Monthly ==> 1 <= month <= 12
    ensures rt == Yearly ==> ParseDecimal(Period(rt, month, year)) == year
    ensures rt == Monthly ==>
              var name := Months[month - 1];
              var r := Period(rt, month, year);
              && r[..|name|] == name && r[|name|] == ' '
              && ParseDecimal(r[|name| + 1..]) == year
  {
    ParseDecimalOfDecimal(year);
    if rt == Monthly {
      var name := Months[month - 1];
      var r := Period(rt, month, year);
      assert r[|name| + 1..] == Decimal(year);
    }
  }

  /** Different months or years give different monthly labels. */
  lemma MonthlyPeriodInjective(m1: int, y1: nat, m2: int, y2: nat)
    requires 1 <= m1 <= 12 && 1 <= m2 <= 12
    requires Period(Monthly, m1, y1) == Period(Monthly, m2, y2)
    ensures m1 == m2 && y1 == y2
  {
    var r := Period(Monthly, m1, y1);
    var n1, n2 := Months[m1 - 1], Months[m2 - 1];
    MonthNamesHaveNoSpace(m1);
    MonthNamesHaveNoSpace(m2);
    PeriodReadsBack(Monthly, m1, y1);
    PeriodReadsBack(Monthly, m2, y2);
    // the first space of the label ends the month name
    assert |n1| == |n2|;
    assert n1 == r[..|n1|] == n2;
    if m1 != m2 {
      MonthNamesDistinct(m1, m2);
    }
  }

  /** The PDF of a monthly report is `Raport_<month>_<year>.pdf` and the
      one of a yearly report `Raport_<year>.pdf`: the only whitespace in a
      label is the one space between month and year. */
  lemma PdfFileNameOfPeriod(rt: ReportType, month: int, year: nat)
    requires rt == Monthly ==> 1 <= month <= 12
    ensures rt == Monthly ==>
              PdfFileName(Period(rt, month, year))
              == "Raport_" + Months[month - 1] + "_" + Decimal(year) + ".pdf"
    ensures rt == Yearly ==>
              PdfFileName(Period(rt, month, year)) == "Raport_" + Decimal(year) + ".pdf"
  {
    DecimalHasNoSpace(year);
    if rt == Monthly {
      MonthNamesHaveNoSpace(month);
      SpaceJoinedName(Months[month - 1], Decimal(year));
    } else {
      ReplaceSpacesNoSpace(Decimal(year), '_');
    }
  }

  /** Two words without white space joined by one space become the two
      words joined by `_`. */
  lemma SpaceJoinedName(name: string, digits: string)
    requires NoSpace(name) && NoSpace(digits)
    ensures ReplaceSpaces(name + " " + digits, '_') == name + "_" + digits
  {
    ReplaceSpacesNoSpace(name, '_');
    ReplaceSpacesNoSpace(digits, '_');
    ReplaceSpacesConcat(name, " " + digits, '_');
    ReplaceSpacesConcat(" ", digits, '_');
    assert ReplaceSpaces(" ", '_') == "_";
    assert name + " " + digits == name + (" " + digits);
    assert name + "_" + digits == name + ("_" + digits);
  }

  // The window and the query

  /** `[dateFrom, dateTo]` of the report: the first and last millisecond of
      the month or of the year, in local time with offset `offset`. */
  function Window(rt: ReportType, month: int, year: nat, offset: int): (w: (int, int))
    requires rt == Monthly ==> 1 <= month <= 12
    ensures w.0 < w.1
  {
    match rt
    case Monthly => (Calendar.StartOfMonth(year, month, offset), Calendar.EndOfMonth(year, month, offset))
    case Yearly => (Calendar.StartOfYear(year, offset), Calendar.EndOfYear(year, offset))
  }

  /** The filter `loadReport` passes to `getTransactions`: both bounds, no
      type, no product. */
  function ReportFilter(rt: ReportType, month: int, year: nat, offset: int): (f: TxFilter)
    requires rt == Monthly ==> 1 <= month <= 12
    ensures !TypeGiven(f) && !ProductGiven(f) && DateFiltered(f)
  {
    var w := Window(rt, month, year, offset);
    TxFilter("", None, Some(w.0), Some(w.1))
  }

  /** The query selects exactly the transactions dated inside the window:
      the end of the window is already the end of its day, so the query's
      push to 23:59:59.999 adds nothing. */
  lemma ReportSelectsWindow(rt: ReportType, month: int, year: nat, offset: int, t: Transaction)
    requires rt == Monthly ==> 1 <= month <= 12
    ensures var w := Window(rt, month, year, offset);
            Matches(ReportFilter(rt, month, year, offset), offset, t) <==> w.0 <= t.date <= w.1
  {
    if rt == Monthly {
      Calendar.EndOfMonthIsEndOfDay(year, month, offset);
    } else {
      Calendar.EndOfMonthIsEndOfDay(year, 12, offset);
    }
  }

  /** A month's report window lies inside its year's. */
  lemma MonthInsideYear(month: int, year: nat, offset: int)
    requires 1 <= month <= 12
    ensures Window(Yearly, 0, year, offset).0 <= Window(Monthly, month, year, offset).0
    ensures Window(Monthly, month, year, offset).1 <= Window(Yearly, 0, year, offset).1
  {
    Calendar.MonthWithinYear(year, month, offset);
  }

  /** The summary of the returned list. */
  function Summarize(list: seq<Transaction>, rt: ReportType, month: int, year: nat): (r: Summary)
    requires rt == Monthly ==> 1 <= month <= 12
    ensures r.transactions == list && r.count == |list|
    ensures r.totalIn == ConditionalSum(list, IN) && r.totalOut == ConditionalSum(list, OUT)
    ensures r.totalIn + r.totalOut == ValueSum(list)
    ensures r.period == Period(rt, month, year)
  {
    TotalIsConditionalSum(list, IN);
    TotalIsConditionalSum(list, OUT);
    TotalsPartition(list);
    Summary(Total(list, IN), Total(list, OUT), |list|, list, Period(rt, month, year))
  }

  /** `loadReport`: queries the ledger for the period and summarises what it
      returns. The summary lists every stored transaction dated inside the
      window, once, newest first, and nothing else. */
  method LoadReport(ledger: Db.Ledger, rt: ReportType, month: int, year: nat, offset: int)
    returns (s: Summary)
    requires ledger.Valid()
    requires rt == Monthly ==> 1 <= month <= 12
    ensures s == Summarize(s.transactions, rt, month, year)
    ensures var w := Window(rt, month, year, offset);
            forall t :: t in s.transactions <==> ledger.Stored(t) && w.0 <= t.date <= w.1
    ensures Seqs.Pairwise(s.transactions, NewerOrSame) && Seqs.NoDup(s.transactions)
  {
    var list := ledger.GetTransactions(ReportFilter(rt, month, year, offset), offset);
    var w := Window(rt, month, year, offset);
    forall t ensures t in list <==> (ledger.Stored(t) && w.0 <= t.date <= w.1) {
      ReportSelectsWindow(rt, month, year, offset, t);
    }
    s := Summarize(list, rt, month, year);
  }
}
