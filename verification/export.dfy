/** `exportService.getMonthlyData` and the grouping and ordering `exportToPDF`
    applies before rendering (`src/services/exportService.ts`). */
module Export {
  import opened Wrappers
  import opened Strings
  import opened Transactions

  // ---------------------------------------------------------------------------
  // Calendar
  // ---------------------------------------------------------------------------

  /** The Gregorian leap-year rule. */
  predicate IsLeap(y: int)
  {
    (y % 4 == 0 && y % 100 != 0) || y % 400 == 0
  }

  function DaysInMonth(y: int, m: int): (d: int)
    requires 1 <= m <= 12
    ensures 28 <= d <= 31
    ensures m == 2 ==> (d == 29 <==> IsLeap(y))
    ensures m != 2 ==> (d == 30 <==> m in {4, 6, 9, 11})
    ensures m != 2 ==> d >= 30
  {
    if m == 2 then (if IsLeap(y) then 29 else 28)
    else if m == 4 || m == 6 || m == 9 || m == 11 then 30
    else 31
  }

  function YearLength(y: int): int
  {
    DaysInMonth(y, 1) + DaysInMonth(y, 2) + DaysInMonth(y, 3) + DaysInMonth(y, 4)
    + DaysInMonth(y, 5) + DaysInMonth(y, 6) + DaysInMonth(y, 7) + DaysInMonth(y, 8)
    + DaysInMonth(y, 9) + DaysInMonth(y, 10) + DaysInMonth(y, 11) + DaysInMonth(y, 12)
  }

  /** The month lengths make up a year of 365 days, 366 in a leap year. */
  lemma YearLengthLemma(y: int)
    ensures YearLength(y) == if IsLeap(y) then 366 else 365
  {
  }

  /** The year `new Date(year, ...)` uses: 0 to 99 stand for 1900 to 1999. */
  function DateYear(year: int): int
  {
    if 0 <= year <= 99 then 1900 + year else year
  }

  /** `new Date(year, month, 0).getDate()`: day 0 of the zero-based month `month` is the
      last day of the month before it, the month index carried into the year first. */
  function LastDay(year: int, month: int): (d: int)
    ensures 28 <= d <= 31
  {
    var index := month - 1;
    DaysInMonth(DateYear(year) + index / 12, index % 12 + 1)
  }

  /** For a month 1 to 12 the last day is that month's length. */
  lemma LastDayOfMonth(year: int, month: int)
    requires 1 <= month <= 12
    ensures LastDay(year, month) == DaysInMonth(DateYear(year), month)
    ensures month == 2 ==> (LastDay(year, month) == 29 <==> IsLeap(DateYear(year)))
  {
  }

  /** Months outside 1 to 12 roll into the neighbouring years: month 0 is the December
      before, month 13 the January after. */
  lemma LastDayRollsOver(year: int)
    ensures LastDay(year, 0) == 31 && LastDay(year, 13) == 31
    ensures year >= 100 ==> LastDay(year, 14) == DaysInMonth(year + 1, 2)
  {
  }

  /** The two-digit-year rule reaches the day count: year 0 is a leap year, but the
      query for February of year 0 ends on the 28th, as 1900 was not. */
  lemma TwoDigitYear()
    ensures IsLeap(0) && !IsLeap(1900)
    ensures LastDay(0, 2) == 28
  {
  }

  // ---------------------------------------------------------------------------
  // The query range
  // ---------------------------------------------------------------------------

  /** `n.toString().padStart(2, '0')`. */
  function Pad2(n: int): (s: string)
    ensures |s| >= 2
  {
    PadStart(IntToString(n), 2, '0')
  }

  /** `` `${year}-${mm}-01` `` */
  function StartDate(year: int, month: int): string
  {
    IntToString(year) + "-" + Pad2(month) + "-01"
  }

  /** `` `${year}-${mm}-${lastDay}` `` */
  function EndDate(year: int, month: int): string
  {
    IntToString(year) + "-" + Pad2(month) + "-" + Pad2(LastDay(year, month))
  }

  /** The two decimal digits of a day 28 to 31, the first of them 2 or 3. */
  lemma DayDigits(d: int)
    requires 28 <= d <= 31
    ensures Pad2(d) == [DigitChar(d / 10), DigitChar(d % 10)]
    ensures '2' <= Pad2(d)[0] <= '3'
  {
    var q, r := d / 10, d % 10;
    assert 2 <= q <= 3 && 0 <= r < 10;
    var digits := [DigitChar(q), DigitChar(r)];
    assert NatToRadix(d, 10) == digits by {
      assert NatToRadix(q, 10) == [DigitChar(q)];
    }
    assert IntToString(d) == digits;
    assert PadStart(digits, 2, '0') == digits;
  }

  /** The year and month part the two query dates share. */
  function MonthPrefix(year: int, month: int): string
  {
    IntToString(year) + "-" + Pad2(month) + "-"
  }

  /** `<y>-<m>-01` is the part up to the second dash followed by the day `01`. */
  lemma DateParts(y: string, m: string)
    ensures y + "-" + m + "-01" == (y + "-" + m + "-") + "01"
  {
    assert "-01" == "-" + "01";
  }

  /** The query starts and ends in the same month: both dates are the shared year and
      month part followed by a two-digit day, the first day and the last. */
  lemma QueryRange(year: int, month: int)
    ensures StartDate(year, month) == MonthPrefix(year, month) + "01"
    ensures EndDate(year, month) == MonthPrefix(year, month) + Pad2(LastDay(year, month))
    ensures |EndDate(year, month)| == |StartDate(year, month)|
  {
    DateParts(IntToString(year), Pad2(month));
    DayDigits(LastDay(year, month));
  }

  /** The start is not after the end in the string order the database compares the
      dates by. */
  lemma QueryOrdered(year: int, month: int)
    ensures LexLe(StartDate(year, month), EndDate(year, month))
  {
    var day := Pad2(LastDay(year, month));
    QueryRange(year, month);
    DayDigits(LastDay(year, month));
    LexLePrefix(MonthPrefix(year, month), "01", day);
    assert LexLe("01", day) by {
      assert "01"[0] < day[0];
    }
  }

  // ---------------------------------------------------------------------------
  // getMonthlyData
  // ---------------------------------------------------------------------------

  const MonthNames: seq<string> := ["January", "February", "March", "April", "May", "June",
    "July", "August", "September", "October", "November", "December"]

  /** `monthNames[month - 1]`: `undefined` outside 1 to 12. */
  function MonthLabel(month: int): (r: Option<string>)
    ensures r.Some? <==> 1 <= month <= 12
    ensures month == 1 ==> r == Some("January")
    ensures month == 12 ==> r == Some("December")
  {
    if 1 <= month <= 12 then Some(MonthNames[month - 1]) else None
  }

  datatype Summary = Summary(totalIncome: int, totalExpenses: int, netAmount: int, transactionCount: int)

  /** The summary of a month's transactions. */
  function Summarize(ts: seq<Txn>): (s: Summary)
    ensures s.totalIncome == Sum(OfKind(ts, Income))
    ensures s.totalExpenses == Sum(OfKind(ts, Expense))
    ensures s.netAmount == s.totalIncome - s.totalExpenses
    ensures s.transactionCount == |ts|
  {
    var income := Sum(OfKind(ts, Income));
    var expenses := Sum(OfKind(ts, Expense));
    Summary(income, expenses, income - expenses, |ts|)
  }

  /** Income and expenses together account for every transaction, and summaries add up
      over a split of the transactions. */
  lemma SummaryLaws(a: seq<Txn>, b: seq<Txn>)
    ensures Summarize(a).totalIncome + Summarize(a).totalExpenses == Sum(a)
    ensures var s, sa, sb := Summarize(a + b), Summarize(a), Summarize(b);
      && s.totalIncome == sa.totalIncome + sb.totalIncome
      && s.totalExpenses == sa.totalExpenses + sb.totalExpenses
      && s.netAmount == sa.netAmount + sb.netAmount
      && s.transactionCount == sa.transactionCount + sb.transactionCount
  {
    KindsPartition(a);
    OfKindAppend(a, b, Income);
    OfKindAppend(a, b, Expense);
    SumAppend(OfKind(a, Income), OfKind(b, Income));
    SumAppend(OfKind(a, Expense), OfKind(b, Expense));
  }

  /** The request `getMonthlyData` sends to the transaction service. */
  datatype Query = Query(userId: string, startDate: string, endDate: string)

  datatype ExportData = ExportData(month: Option<string>, year: int, transactions: seq<Txn>, summary: Summary)

  /** `exportService.getMonthlyData(userId, year, month)`; `fetched` is what the service
      returns for the query (`None` for `null`; its error is not looked at). */
  function GetMonthlyData(userId: string, year: int, month: int, fetched: Option<seq<Txn>>): (r: (Query, ExportData))
    ensures r.0.userId == userId
    ensures r.0.startDate == StartDate(year, month) && r.0.endDate == EndDate(year, month)
    ensures r.1.transactions == fetched.GetOr([])
    ensures r.1.year == year && r.1.month == MonthLabel(month)
    ensures r.1.summary.totalIncome + r.1.summary.totalExpenses == Sum(fetched.GetOr([]))
    ensures r.1.summary.netAmount == Sum(OfKind(fetched.GetOr([]), Income)) - Sum(OfKind(fetched.GetOr([]), Expense))
    ensures r.1.summary.transactionCount == |fetched.GetOr([])|
    ensures fetched.None? ==> r.1.summary == Summary(0, 0, 0, 0)
  {
    var ts := fetched.GetOr([]);
    SummaryLaws(ts, []);
    (Query(userId, StartDate(year, month), EndDate(year, month)),
     ExportData(MonthLabel(month), year, ts, Summarize(ts)))
  }

  // ---------------------------------------------------------------------------
  // exportToPDF: category groups, largest first
  // ---------------------------------------------------------------------------

  /** The group key `${categoryName}_${type}`. */
  function GroupKey(category: string, kind: Kind): string
  {
    category + "_" + KindName(kind)
  }

  /** Reads the category label and type back off a group key. */
  function ParseGroupKey(key: string): (string, Kind)
  {
    if |key| >= 7 && key[|key| - 7..] == "_income" then (key[..|key| - 7], Income)
    else if |key| >= 8 then (key[..|key| - 8], Expense)
    else ("", Expense)
  }

  /** The key of every transaction reads back as its category label and type. */
  lemma GroupKeyRoundTrip(category: string, kind: Kind)
    ensures ParseGroupKey(GroupKey(category, kind)) == (category, kind)
  {
    var key := GroupKey(category, kind);
    if kind == Income {
      assert key[|key| - 7..] == "_income";
      assert key[..|key| - 7] == category;
    } else {
      assert key[|key| - 7] == 'e';
      assert key[..|key| - 8] == category;
    }
  }

  /** Two transactions share a group key exactly when they share the category label
      and the type: the suffixes `_income` and `_expense` cannot be confused. */
  lemma GroupKeyInjective(a: Txn, b: Txn)
    ensures ByNameAndType(a) == ByNameAndType(b) <==>
      CategoryLabel(a) == CategoryLabel(b) && a.kind == b.kind
  {
    assert ByNameAndType(a) == GroupKey(CategoryLabel(a), a.kind);
    assert ByNameAndType(b) == GroupKey(CategoryLabel(b), b.kind);
    GroupKeyRoundTrip(CategoryLabel(a), a.kind);
    GroupKeyRoundTrip(CategoryLabel(b), b.kind);
  }

  /** A row of the PDF summary table. */
  datatype Group = Group(category: string, kind: Kind, total: int)

  function GroupOf(b: Bucket): Group
  {
    var (category, kind) := ParseGroupKey(b.key);
    Group(category, kind, b.total)
  }

  function GroupsOf(bs: seq<Bucket>): (gs: seq<Group>)
    ensures |gs| == |bs|
    ensures forall i :: 0 <= i < |bs| ==> gs[i] == GroupOf(bs[i])
  {
    if |bs| == 0 then [] else [GroupOf(bs[0])] + GroupsOf(bs[1..])
  }

  /** `Object.values(categoryGroups)`: one group per category label and type, in the
      order the keys first occur (no group key is an array index, so none moves ahead). */
  function Groups(ts: seq<Txn>): seq<Group>
  {
    GroupsOf(Totals(ts, ByNameAndType))
  }

  /** The transactions of one category label and type. */
  function InGroup(ts: seq<Txn>, category: string, kind: Kind): seq<Txn>
  {
    if |ts| == 0 then []
    else (if CategoryLabel(ts[0]) == category && ts[0].kind == kind then [ts[0]] else [])
         + InGroup(ts[1..], category, kind)
  }

  lemma {:induction false} InGroupIsMatching(ts: seq<Txn>, t: Txn)
    ensures InGroup(ts, CategoryLabel(t), t.kind) == Matching(ts, ByNameAndType, ByNameAndType(t))
  {
    if |ts| > 0 {
      GroupKeyInjective(ts[0], t);
      InGroupIsMatching(ts[1..], t);
    }
  }

  /** A group made from a bucket whose key occurs is the group of a transaction. */
  lemma GroupOfOccurring(ts: seq<Txn>, b: Bucket) returns (j: int)
    requires Occurs(ts, ByNameAndType, b.key)
    ensures 0 <= j < |ts| && ByNameAndType(ts[j]) == b.key
    ensures GroupOf(b) == Group(CategoryLabel(ts[j]), ts[j].kind, b.total)
  {
    j :| 0 <= j < |ts| && ByNameAndType(ts[j]) == b.key;
    assert b.key == GroupKey(CategoryLabel(ts[j]), ts[j].kind);
    GroupKeyRoundTrip(CategoryLabel(ts[j]), ts[j].kind);
  }

  /** Each group is the category label and type of some transaction, and holds the sum
      of exactly the transactions with that label and type. */
  lemma GroupsFromTransactions(ts: seq<Txn>)
    ensures var gs := Groups(ts);
      forall i :: 0 <= i < |gs| ==>
        && (exists j :: 0 <= j < |ts| && CategoryLabel(ts[j]) == gs[i].category && ts[j].kind == gs[i].kind)
        && gs[i].total == Sum(InGroup(ts, gs[i].category, gs[i].kind))
  {
    var bs := Totals(ts, ByNameAndType);
    var gs := Groups(ts);
    TotalsSpec(ts, ByNameAndType);
    forall i | 0 <= i < |gs|
      ensures exists j :: 0 <= j < |ts| && CategoryLabel(ts[j]) == gs[i].category && ts[j].kind == gs[i].kind
      ensures gs[i].total == Sum(InGroup(ts, gs[i].category, gs[i].kind))
    {
      assert Occurs(ts, ByNameAndType, bs[i].key);
      var j := GroupOfOccurring(ts, bs[i]);
      InGroupIsMatching(ts, ts[j]);
    }
  }

  /** No two groups share a category label and type. */
  lemma GroupsDistinct(ts: seq<Txn>)
    ensures var gs := Groups(ts);
      forall i, j :: 0 <= i < j < |gs| ==> gs[i].category != gs[j].category || gs[i].kind != gs[j].kind
  {
    var bs := Totals(ts, ByNameAndType);
    var gs := Groups(ts);
    TotalsSpec(ts, ByNameAndType);
    forall i, j | 0 <= i < j < |gs|
      ensures gs[i].category != gs[j].category || gs[i].kind != gs[j].kind
    {
      assert Occurs(ts, ByNameAndType, bs[i].key) && Occurs(ts, ByNameAndType, bs[j].key);
      var a := GroupOfOccurring(ts, bs[i]);
      var b := GroupOfOccurring(ts, bs[j]);
      GroupKeyInjective(ts[a], ts[b]);
    }
  }

  /** Every transaction's category label and type has a group. */
  lemma GroupsCoverTransactions(ts: seq<Txn>)
    ensures var gs := Groups(ts);
      forall j :: 0 <= j < |ts| ==>
        exists i :: 0 <= i < |gs| && gs[i].category == CategoryLabel(ts[j]) && gs[i].kind == ts[j].kind
  {
    var bs := Totals(ts, ByNameAndType);
    var gs := Groups(ts);
    TotalsSpec(ts, ByNameAndType);
    forall j | 0 <= j < |ts|
      ensures exists i :: 0 <= i < |gs| && gs[i].category == CategoryLabel(ts[j]) && gs[i].kind == ts[j].kind
    {
      var i := Find(bs, ByNameAndType(ts[j]));
      assert Occurs(ts, ByNameAndType, bs[i].key);
      var a := GroupOfOccurring(ts, bs[i]);
      GroupKeyInjective(ts[a], ts[j]);
    }
  }

  function SumGroups(gs: seq<Group>): int
  {
    if |gs| == 0 then 0 else gs[0].total + SumGroups(gs[1..])
  }

  lemma {:induction false} SumGroupsOf(bs: seq<Bucket>)
    ensures SumGroups(GroupsOf(bs)) == SumTotals(bs)
  {
    if |bs| > 0 {
      SumGroupsOf(bs[1..]);
      assert GroupsOf(bs)[1..] == GroupsOf(bs[1..]);
    }
  }

  /** The groups together hold the sum of all amounts. */
  lemma GroupsConserve(ts: seq<Txn>)
    ensures SumGroups(Groups(ts)) == Sum(ts)
  {
    TotalsSpec(ts, ByNameAndType);
    SumGroupsOf(Totals(ts, ByNameAndType));
  }

  /** Largest total first. */
  predicate Descending(gs: seq<Group>)
  {
    forall i, j :: 0 <= i < j < |gs| ==> gs[i].total >= gs[j].total
  }

  /** Each total is at least the next one. */
  predicate StepsDown(gs: seq<Group>)
  {
    forall i :: 0 <= i < |gs| - 1 ==> gs[i].total >= gs[i + 1].total
  }

  lemma {:induction false} StepsDownDescending(gs: seq<Group>)
    requires StepsDown(gs)
    ensures Descending(gs)
  {
    if |gs| > 1 {
      StepsDownDescending(gs[1..]);
      assert forall j :: 1 <= j < |gs| ==> gs[1].total >= gs[j].total by {
        forall j | 1 <= j < |gs| ensures gs[1].total >= gs[j].total {
          assert gs[1..][0] == gs[1] && gs[1..][j - 1] == gs[j];
        }
      }
      forall i, j | 0 <= i < j < |gs| ensures gs[i].total >= gs[j].total {
        if i > 0 {
          assert gs[1..][i - 1] == gs[i] && gs[1..][j - 1] == gs[j];
        }
      }
    }
  }

  /** Inserts a group before the first one whose total is not larger, so that among
      equal totals the group inserted later, which came earlier, stays first. */
  function Insert(g: Group, gs: seq<Group>): (r: seq<Group>)
    ensures |r| == |gs| + 1
    ensures r[0] == g || (|gs| > 0 && r[0] == gs[0])
    ensures multiset(r) == multiset(gs) + multiset{g}
    ensures SumGroups(r) == g.total + SumGroups(gs)
  {
    if |gs| == 0 || gs[0].total <= g.total then
      var r := [g] + gs;
      assert r[1..] == gs;
      r
    else
      var rest := Insert(g, gs[1..]);
      var r := [gs[0]] + rest;
      assert gs == [gs[0]] + gs[1..];
      assert r[1..] == rest;
      r
  }

  /** Inserting into groups that step down keeps them stepping down. */
  lemma {:induction false} InsertStepsDown(g: Group, gs: seq<Group>)
    requires StepsDown(gs)
    ensures StepsDown(Insert(g, gs))
  {
    if |gs| > 0 && gs[0].total > g.total {
      var rest := Insert(g, gs[1..]);
      InsertStepsDown(g, gs[1..]);
      var r := Insert(g, gs);
      assert r == [gs[0]] + rest;
      forall i | 0 <= i < |r| - 1 ensures r[i].total >= r[i + 1].total {
        if i > 0 {
          assert r[i] == rest[i - 1] && r[i + 1] == rest[i];
        }
      }
    }
  }

  /** `.sort((a, b) => b.total - a.total)`, stable as the language requires. */
  function SortByTotal(gs: seq<Group>): (r: seq<Group>)
    ensures multiset(r) == multiset(gs)
    ensures |r| == |gs|
    ensures StepsDown(r)
    ensures SumGroups(r) == SumGroups(gs)
  {
    if |gs| == 0 then []
    else
      assert gs == [gs[0]] + gs[1..];
      InsertStepsDown(gs[0], SortByTotal(gs[1..]));
      Insert(gs[0], SortByTotal(gs[1..]))
  }

  /** The rows of the PDF summary, in table order. */
  function PdfRows(ts: seq<Txn>): seq<Group>
  {
    SortByTotal(Groups(ts))
  }

  /** The table lists the groups, largest total first, and accounts for every
      transaction exactly once: each row holds the sum of its category label and type,
      and the rows add up to the sum of all amounts. */
  lemma PdfRowsSpec(ts: seq<Txn>)
    ensures multiset(PdfRows(ts)) == multiset(Groups(ts))
    ensures Descending(PdfRows(ts))
    ensures SumGroups(PdfRows(ts)) == Sum(ts)
    ensures forall r :: r in PdfRows(ts) ==> r.total == Sum(InGroup(ts, r.category, r.kind))
  {
    var gs := Groups(ts);
    StepsDownDescending(PdfRows(ts));
    GroupsConserve(ts);
    GroupsFromTransactions(ts);
    forall r | r in PdfRows(ts) ensures r.total == Sum(InGroup(ts, r.category, r.kind)) {
      assert r in multiset(gs);
      var i :| 0 <= i < |gs| && gs[i] == r;
    }
  }
}
