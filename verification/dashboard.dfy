/**
 * The values the rewards dashboard derives from the loaded transactions:
 * the customer list for the selector, the reference date, the monthly
 * summaries and the per-customer totals.
 */
module Dashboard {
  import opened Text
  import opened Grouping
  import opened Transactions
  import opened PointCalculator
  import opened MonthlyRewards

  // ---------------------------------------------------------------------------
  // customers

  datatype Customer = Customer(id: int, name: string)

  /** The customers of the transactions: one per id, first-seen order, first-seen name. */
  function CustomerList(transactions: seq<Transaction>): seq<Customer> {
    var ids := DistinctKeys(transactions, CustomerIdOf);
    DistinctKeysSpec(transactions, CustomerIdOf);
    seq(|ids|, j requires 0 <= j < |ids| =>
      Customer(ids[j], transactions[FirstIndex(transactions, CustomerIdOf, ids[j])].customerName))
  }

  /** The id to name map holds exactly ids, each with the name of the first transaction of s carrying it. */
  ghost predicate FirstNames(names: map<int, string>, ids: seq<int>, s: seq<Transaction>) {
    && (forall id :: id in names <==> id in ids)
    && (forall j :: 0 <= j < |ids| ==>
          Occurs(s, CustomerIdOf, ids[j]) && names[ids[j]] == s[FirstIndex(s, CustomerIdOf, ids[j])].customerName)
  }

  /**
   * The ids and the map after the first n transactions: an id not yet in
   * the map is added with the transaction's name; a known id is left alone.
   */
  function Registered(transactions: seq<Transaction>, n: int): (seq<int>, map<int, string>)
    requires 0 <= n <= |transactions|
    decreases n
  {
    if n == 0 then ([], map[])
    else
      var (ids, names) := Registered(transactions, n - 1);
      var t := transactions[n - 1];
      if t.customerId in names then (ids, names)
      else (ids + [t.customerId], names[t.customerId := t.customerName])
  }

  /** Registering one more transaction keeps the map the first-seen names of the prefix. */
  lemma RegisteringPreservesNames(names: map<int, string>, s: seq<Transaction>, t: Transaction)
    requires FirstNames(names, DistinctKeys(s, CustomerIdOf), s)
    ensures var names' := if t.customerId in names then names else names[t.customerId := t.customerName];
      FirstNames(names', DistinctKeys(s + [t], CustomerIdOf), s + [t])
  {
    var names' := if t.customerId in names then names else names[t.customerId := t.customerName];
    var ids, ids' := DistinctKeys(s, CustomerIdOf), DistinctKeys(s + [t], CustomerIdOf);
    DistinctKeysSnoc(s, t, CustomerIdOf);
    assert ids' == if t.customerId in ids then ids else ids + [t.customerId];
    forall j | 0 <= j < |ids'|
      ensures Occurs(s + [t], CustomerIdOf, ids'[j])
           && names'[ids'[j]] == (s + [t])[FirstIndex(s + [t], CustomerIdOf, ids'[j])].customerName
    {
      DistinctKeysSound(s + [t], CustomerIdOf, j);
      FirstIndexSnoc(s, t, CustomerIdOf, ids'[j]);
      if j < |ids| {
        assert ids'[j] == ids[j] && Occurs(s, CustomerIdOf, ids[j]);
        assert (s + [t])[FirstIndex(s, CustomerIdOf, ids[j])] == s[FirstIndex(s, CustomerIdOf, ids[j])];
      } else if Occurs(s, CustomerIdOf, ids'[j]) {
        var x :| 0 <= x < |s| && CustomerIdOf(s[x]) == ids'[j];
        DistinctKeysComplete(s, CustomerIdOf, x);
        assert false;
      }
    }
  }

  lemma {:induction false} RegisteredFirstNames(transactions: seq<Transaction>, n: int)
    requires 0 <= n <= |transactions|
    ensures Registered(transactions, n).0 == DistinctKeys(transactions[..n], CustomerIdOf)
    ensures FirstNames(Registered(transactions, n).1, Registered(transactions, n).0, transactions[..n])
    decreases n
  {
    if n == 0 {
      assert transactions[..n] == [];
    } else {
      var i := n - 1;
      RegisteredFirstNames(transactions, i);
      var (ids, names) := Registered(transactions, i);
      assert transactions[..n] == transactions[..i] + [transactions[i]];
      DistinctKeysSnoc(transactions[..i], transactions[i], CustomerIdOf);
      RegisteringPreservesNames(names, transactions[..i], transactions[i]);
    }
  }

  /** The `customers` memo: a Map from id to the first name seen, read out in insertion order. */
  method Customers(transactions: seq<Transaction>) returns (customers: seq<Customer>)
    ensures customers == CustomerList(transactions)
  {
    var ids: seq<int> := [];
    var names: map<int, string> := map[];
    var i := 0;
    while i < |transactions|
      invariant 0 <= i <= |transactions|
      invariant (ids, names) == Registered(transactions, i)
    {
      var tx := transactions[i];
      if tx.customerId !in names {
        names := names[tx.customerId := tx.customerName];
        ids := ids + [tx.customerId];
      }
      i := i + 1;
    }
    RegisteredFirstNames(transactions, i);
    assert transactions[..i] == transactions;
    // Array.from(map.entries()): the j-th entry is the j-th id with its name
    ValuesInOrderAt(names, ids);
    var firstNames := ValuesInOrder(names, ids);
    customers := seq(|ids|, j requires 0 <= j < |ids| => Customer(ids[j], firstNames[j]));
  }

  /** Each customer listed once: no two entries share an id. */
  lemma CustomersDistinct(transactions: seq<Transaction>, i: int, j: int)
    requires 0 <= i < j < |CustomerList(transactions)|
    ensures CustomerList(transactions)[i].id != CustomerList(transactions)[j].id
  {
    DistinctKeysSpec(transactions, CustomerIdOf);
  }

  /** A customer is listed exactly when some transaction carries the id. */
  lemma CustomersListedIff(transactions: seq<Transaction>, id: int)
    ensures (exists i :: 0 <= i < |CustomerList(transactions)| && CustomerList(transactions)[i].id == id)
        <==> (exists t :: t in transactions && t.customerId == id)
  {
    var ids := DistinctKeys(transactions, CustomerIdOf);
    var cs := CustomerList(transactions);
    if t :| t in transactions && t.customerId == id {
      var x :| 0 <= x < |transactions| && transactions[x] == t;
      DistinctKeysComplete(transactions, CustomerIdOf, x);
      var i :| 0 <= i < |ids| && ids[i] == id;
      assert cs[i].id == id;
    }
    if i :| 0 <= i < |cs| && cs[i].id == id {
      DistinctKeysSound(transactions, CustomerIdOf, i);
      var x :| 0 <= x < |transactions| && CustomerIdOf(transactions[x]) == id;
      assert transactions[x] in transactions;
    }
  }

  /** A customer's name is that of the first transaction carrying the id; later names are ignored. */
  lemma CustomerNameFirstSeen(transactions: seq<Transaction>, i: int, p: int)
    requires 0 <= i < |CustomerList(transactions)|
    requires IsFirstIndex(transactions, CustomerIdOf, CustomerList(transactions)[i].id, p)
    ensures CustomerList(transactions)[i].name == transactions[p].customerName
  {
    var ids := DistinctKeys(transactions, CustomerIdOf);
    DistinctKeysSound(transactions, CustomerIdOf, i);
    FirstIndexIs(transactions, CustomerIdOf, ids[i], p);
  }

  /** Customers come out in the order in which their ids were first seen. */
  lemma CustomersInFirstSeenOrder(transactions: seq<Transaction>, i: int, j: int, p: int, q: int)
    requires 0 <= i < j < |CustomerList(transactions)|
    requires IsFirstIndex(transactions, CustomerIdOf, CustomerList(transactions)[i].id, p)
    requires IsFirstIndex(transactions, CustomerIdOf, CustomerList(transactions)[j].id, q)
    ensures p < q
  {
    DistinctKeysFirstSeenOrder(transactions, CustomerIdOf, i, j, p, q);
  }

  // ---------------------------------------------------------------------------
  // referenceDate

  /**
   * `a > b` on the ISO "YYYY-MM-DD" strings the source compares: for
   * four-digit years that is the order of (year, month, day).
   */
  predicate Later(a: Date, b: Date) {
    || a.year > b.year
    || (a.year == b.year && a.month > b.month)
    || (a.year == b.year && a.month == b.month && a.day > b.day)
  }

  /** The dates are totally ordered: of two different dates, exactly one is later. */
  lemma LaterTotal(a: Date, b: Date)
    ensures a == b ==> !Later(a, b) && !Later(b, a)
    ensures a != b ==> (Later(a, b) <==> !Later(b, a))
  {
  }

  /** `transactions.reduce((latest, tx) => tx.date > latest ? tx.date : latest, start)`. */
  function Latest(transactions: seq<Transaction>, start: Date): (latest: Date)
    decreases |transactions|
  {
    if transactions == [] then start
    else
      var latest := Latest(transactions[..|transactions| - 1], start);
      var tx := transactions[|transactions| - 1];
      if Later(tx.date, latest) then tx.date else latest
  }

  /** The reduce returns the start or one of the dates, and nothing is later than it. */
  lemma {:induction false} LatestIsMaximum(transactions: seq<Transaction>, start: Date)
    ensures var latest := Latest(transactions, start);
      && (latest == start || exists t :: t in transactions && t.date == latest)
      && !Later(start, latest)
      && forall t :: t in transactions ==> !Later(t.date, latest)
    decreases |transactions|
  {
    if transactions != [] {
      var n := |transactions| - 1;
      var prefix := transactions[..n];
      LatestIsMaximum(prefix, start);
      assert transactions == prefix + [transactions[n]];
      forall t | t in transactions
        ensures !Later(t.date, Latest(transactions, start))
      {
        if t in prefix {
          LaterTotal(t.date, Latest(prefix, start));
        }
      }
    }
  }

  /** The `referenceDate` memo: none without transactions, else the latest date, starting from the first. */
  function ReferenceDate(transactions: seq<Transaction>): (r: Option<Date>)
    ensures r.None? <==> transactions == []
  {
    if |transactions| == 0 then None else Some(Latest(transactions, transactions[0].date))
  }

  /** The reference date is a transaction's date, and no transaction is later. */
  lemma ReferenceDateIsLatest(transactions: seq<Transaction>)
    requires transactions != []
    ensures exists t :: t in transactions && t.date == ReferenceDate(transactions).value
    ensures forall t :: t in transactions ==> !Later(t.date, ReferenceDate(transactions).value)
  {
    LatestIsMaximum(transactions, transactions[0].date);
    assert transactions[0] in transactions;
  }

  /** Any date that is a transaction's and that no transaction beats is the reference date. */
  lemma ReferenceDateUnique(transactions: seq<Transaction>, d: Date)
    requires exists t :: t in transactions && t.date == d
    requires forall t :: t in transactions ==> !Later(t.date, d)
    ensures ReferenceDate(transactions) == Some(d)
  {
    ReferenceDateIsLatest(transactions);
    var r := ReferenceDate(transactions).value;
    var t :| t in transactions && t.date == r;
    LaterTotal(d, r);
  }

  // ---------------------------------------------------------------------------
  // monthlySummaries

  /**
   * The `monthlySummaries` memo: nothing without transactions, otherwise
   * the summaries for the window ending in the latest transaction's month.
   * The clock fallback of the source is not needed there: the reference date
   * exists whenever there are transactions.
   */
  function MonthlySummaries(transactions: seq<Transaction>): seq<MonthlySummary> {
    if |transactions| == 0 then []
    else Summaries(transactions, ReferenceDate(transactions).value)
  }

  /**
   * With the latest date as reference no transaction lies in a later month,
   * so a transaction is left out only for being more than two calendar
   * months older than the latest one.
   */
  lemma NoTransactionAfterReference(transactions: seq<Transaction>, t: Transaction)
    requires t in transactions
    ensures var ref := ReferenceDate(transactions).value;
      MonthIndex(YearMonthOf(t.date)) <= MonthIndex(YearMonthOf(ref))
  {
    ReferenceDateIsLatest(transactions);
  }

  /** The dashboard shows monthly rows exactly when there are transactions at all. */
  lemma MonthlySummariesEmptyIff(transactions: seq<Transaction>)
    ensures MonthlySummaries(transactions) == [] <==> transactions == []
  {
    if transactions != [] {
      var ref := ReferenceDate(transactions).value;
      ReferenceDateIsLatest(transactions);
      var t :| t in transactions && t.date == ref;
      assert IsWithinLastNMonths(t.date, ref, WindowMonths);
      SummariesEmptyIff(transactions, ref);
    }
  }

  // ---------------------------------------------------------------------------
  // customerTotals

  datatype CustomerTotal = CustomerTotal(customerId: int, customerName: string, totalPoints: nat)

  function SummaryCustomerId(s: MonthlySummary): int {
    s.customerId
  }

  function TotalPoints(c: CustomerTotal): nat {
    c.totalPoints
  }

  /** The total of customer id: name of the customer's first summary, points of all of them. */
  function TotalOf(summaries: seq<MonthlySummary>, id: int): CustomerTotal
    requires Occurs(summaries, SummaryCustomerId, id)
  {
    var first := summaries[FirstIndex(summaries, SummaryCustomerId, id)];
    CustomerTotal(first.customerId, first.customerName, SumOf(summaries, SummaryCustomerId, SummaryPoints, id))
  }

  /** What the `customerTotals` memo returns: one total per customer, in order of first appearance. */
  function TotalsOf(summaries: seq<MonthlySummary>): seq<CustomerTotal> {
    var ids := DistinctKeys(summaries, SummaryCustomerId);
    DistinctKeysSpec(summaries, SummaryCustomerId);
    seq(|ids|, j requires 0 <= j < |ids| => TotalOf(summaries, ids[j]))
  }

  /** The totals map holds exactly ids, each with the total of the summaries s for that customer. */
  ghost predicate Totals(byCustomer: map<int, CustomerTotal>, ids: seq<int>, s: seq<MonthlySummary>) {
    && (forall id :: id in byCustomer <==> id in ids)
    && (forall j :: 0 <= j < |ids| ==>
          Occurs(s, SummaryCustomerId, ids[j]) && byCustomer[ids[j]] == TotalOf(s, ids[j]))
  }

  /** One step of the memo's loop: seed a new customer from the summary, or add to the existing total. */
  function Tally(byCustomer: map<int, CustomerTotal>, s: MonthlySummary): map<int, CustomerTotal> {
    if s.customerId !in byCustomer then byCustomer[s.customerId := CustomerTotal(s.customerId, s.customerName, s.points)]
    else
      var existing := byCustomer[s.customerId];
      byCustomer[s.customerId := existing.(totalPoints := existing.totalPoints + s.points)]
  }

  /** The ids and the map after the first n summaries. */
  function Tallied(summaries: seq<MonthlySummary>, n: int): (seq<int>, map<int, CustomerTotal>)
    requires 0 <= n <= |summaries|
    decreases n
  {
    if n == 0 then ([], map[])
    else
      var (ids, byCustomer) := Tallied(summaries, n - 1);
      var s := summaries[n - 1];
      (if s.customerId in byCustomer then ids else ids + [s.customerId], Tally(byCustomer, s))
  }

  /** Tallying one more summary keeps the map the per-customer totals of the prefix. */
  lemma TallyPreservesTotals(byCustomer: map<int, CustomerTotal>, s: seq<MonthlySummary>, x: MonthlySummary)
    requires Totals(byCustomer, DistinctKeys(s, SummaryCustomerId), s)
    ensures Totals(Tally(byCustomer, x), DistinctKeys(s + [x], SummaryCustomerId), s + [x])
  {
    var after := Tally(byCustomer, x);
    var ids, ids' := DistinctKeys(s, SummaryCustomerId), DistinctKeys(s + [x], SummaryCustomerId);
    DistinctKeysSnoc(s, x, SummaryCustomerId);
    assert ids' == if x.customerId in ids then ids else ids + [x.customerId];
    forall j | 0 <= j < |ids'|
      ensures Occurs(s + [x], SummaryCustomerId, ids'[j]) && after[ids'[j]] == TotalOf(s + [x], ids'[j])
    {
      var id := ids'[j];
      DistinctKeysSound(s + [x], SummaryCustomerId, j);
      FirstIndexSnoc(s, x, SummaryCustomerId, id);
      SumOfSnoc(s, x, SummaryCustomerId, SummaryPoints, id);
      if j < |ids| {
        assert id == ids[j] && Occurs(s, SummaryCustomerId, id);
        assert (s + [x])[FirstIndex(s, SummaryCustomerId, id)] == s[FirstIndex(s, SummaryCustomerId, id)];
      } else if Occurs(s, SummaryCustomerId, id) {
        var y :| 0 <= y < |s| && SummaryCustomerId(s[y]) == id;
        DistinctKeysComplete(s, SummaryCustomerId, y);
        assert false;
      } else {
        SumOfAbsent(s, SummaryCustomerId, SummaryPoints, id);
      }
    }
  }

  lemma {:induction false} TalliedTotals(summaries: seq<MonthlySummary>, n: int)
    requires 0 <= n <= |summaries|
    ensures Tallied(summaries, n).0 == DistinctKeys(summaries[..n], SummaryCustomerId)
    ensures Totals(Tallied(summaries, n).1, Tallied(summaries, n).0, summaries[..n])
    decreases n
  {
    if n == 0 {
      assert summaries[..n] == [];
    } else {
      var i := n - 1;
      TalliedTotals(summaries, i);
      var (ids, byCustomer) := Tallied(summaries, i);
      assert summaries[..n] == summaries[..i] + [summaries[i]];
      DistinctKeysSnoc(summaries[..i], summaries[i], SummaryCustomerId);
      TallyPreservesTotals(byCustomer, summaries[..i], summaries[i]);
    }
  }

  /** The `customerTotals` memo: one pass over the summaries with a Map from customer id to total. */
  method CustomerTotals(monthlySummaries: seq<MonthlySummary>) returns (totals: seq<CustomerTotal>)
    ensures totals == TotalsOf(monthlySummaries)
  {
    var ids: seq<int> := [];
    var totalsByCustomer: map<int, CustomerTotal> := map[];
    var i := 0;
    while i < |monthlySummaries|
      invariant 0 <= i <= |monthlySummaries|
      invariant (ids, totalsByCustomer) == Tallied(monthlySummaries, i)
    {
      var summary := monthlySummaries[i];
      if summary.customerId !in totalsByCustomer {
        totalsByCustomer := totalsByCustomer[summary.customerId := CustomerTotal(summary.customerId, summary.customerName, summary.points)];
        ids := ids + [summary.customerId];
      } else {
        var existing := totalsByCustomer[summary.customerId];
        totalsByCustomer := totalsByCustomer[summary.customerId := existing.(totalPoints := existing.totalPoints + summary.points)];
      }
      i := i + 1;
    }
    TalliedTotals(monthlySummaries, i);
    assert monthlySummaries[..i] == monthlySummaries;
    ValuesInOrderAt(totalsByCustomer, ids);
    totals := ValuesInOrder(totalsByCustomer, ids);
  }

  /** One total per customer of the summaries, and each total carries its customer's id. */
  lemma TotalsOnePerCustomer(summaries: seq<MonthlySummary>, i: int)
    requires 0 <= i < |TotalsOf(summaries)|
    ensures TotalsOf(summaries)[i].customerId == DistinctKeys(summaries, SummaryCustomerId)[i]
    ensures forall j :: 0 <= j < |TotalsOf(summaries)| && j != i ==>
      TotalsOf(summaries)[j].customerId != TotalsOf(summaries)[i].customerId
  {
    DistinctKeysSpec(summaries, SummaryCustomerId);
    var ids := DistinctKeys(summaries, SummaryCustomerId);
    forall j | 0 <= j < |ids| ensures TotalsOf(summaries)[j].customerId == ids[j] {
    }
  }

  /** A customer has a total exactly when it has a summary. */
  lemma TotalsListedIff(summaries: seq<MonthlySummary>, id: int)
    ensures (exists i :: 0 <= i < |TotalsOf(summaries)| && TotalsOf(summaries)[i].customerId == id)
        <==> (exists s :: s in summaries && s.customerId == id)
  {
    var ids := DistinctKeys(summaries, SummaryCustomerId);
    var ts := TotalsOf(summaries);
    if s :| s in summaries && s.customerId == id {
      var x :| 0 <= x < |summaries| && summaries[x] == s;
      DistinctKeysComplete(summaries, SummaryCustomerId, x);
      var i :| 0 <= i < |ids| && ids[i] == id;
      TotalsOnePerCustomer(summaries, i);
    }
    if i :| 0 <= i < |ts| && ts[i].customerId == id {
      TotalsOnePerCustomer(summaries, i);
      DistinctKeysSound(summaries, SummaryCustomerId, i);
      var x :| 0 <= x < |summaries| && SummaryCustomerId(summaries[x]) == id;
      assert summaries[x] in summaries;
    }
  }

  /**
   * A total's name is that of the customer's first summary, and its points
   * are the points of all the customer's summaries added up.
   */
  lemma TotalFromSummaries(summaries: seq<MonthlySummary>, i: int, p: int)
    requires 0 <= i < |TotalsOf(summaries)|
    requires IsFirstIndex(summaries, SummaryCustomerId, TotalsOf(summaries)[i].customerId, p)
    ensures TotalsOf(summaries)[i].customerName == summaries[p].customerName
    ensures TotalsOf(summaries)[i].totalPoints
         == SumOf(summaries, SummaryCustomerId, SummaryPoints, TotalsOf(summaries)[i].customerId)
  {
    TotalsOnePerCustomer(summaries, i);
    var ids := DistinctKeys(summaries, SummaryCustomerId);
    DistinctKeysSound(summaries, SummaryCustomerId, i);
    FirstIndexIs(summaries, SummaryCustomerId, ids[i], p);
  }

  /** Totals come out in the order in which their customer first appears among the summaries. */
  lemma TotalsInFirstSeenOrder(summaries: seq<MonthlySummary>, i: int, j: int, p: int, q: int)
    requires 0 <= i < j < |TotalsOf(summaries)|
    requires IsFirstIndex(summaries, SummaryCustomerId, TotalsOf(summaries)[i].customerId, p)
    requires IsFirstIndex(summaries, SummaryCustomerId, TotalsOf(summaries)[j].customerId, q)
    ensures p < q
  {
    TotalsOnePerCustomer(summaries, i);
    TotalsOnePerCustomer(summaries, j);
    DistinctKeysFirstSeenOrder(summaries, SummaryCustomerId, i, j, p, q);
  }

  /** The totals add up to the summaries' points: nothing lost, nothing counted twice. */
  lemma TotalsConservePoints(summaries: seq<MonthlySummary>)
    ensures Total(TotalsOf(summaries), TotalPoints) == Total(summaries, SummaryPoints)
  {
    var ids := DistinctKeys(summaries, SummaryCustomerId);
    DistinctKeysSpec(summaries, SummaryCustomerId);
    TotalOfGroups(TotalsOf(summaries), TotalPoints, ids, summaries, SummaryCustomerId, SummaryPoints);
    GroupTotalConserves(summaries, SummaryCustomerId, SummaryPoints);
  }

  /**
   * End to end: the dashboard's totals add up to the points of the
   * transactions in the three months ending with the latest one.
   */
  lemma DashboardTotalsConservePoints(transactions: seq<Transaction>)
    requires transactions != []
    ensures Total(TotalsOf(MonthlySummaries(transactions)), TotalPoints)
         == Total(Kept(transactions, ReferenceDate(transactions).value), TxPoints)
  {
    TotalsConservePoints(MonthlySummaries(transactions));
    SummariesConservePoints(transactions, ReferenceDate(transactions).value);
  }

  // ---------------------------------------------------------------------------
  // the dashboard's unit-test scenario

  /** Alice in June and July, Bob in August. */
  function ThreeTransactions(): seq<Transaction> {
    [ Transaction("t1", 1, "Alice", Date(2025, 6, 10), 120.0),
      Transaction("t2", 1, "Alice", Date(2025, 7, 10), 60.0),
      Transaction("t3", 2, "Bob", Date(2025, 8, 1), 130.0) ]
  }

  /** The latest purchase is Bob's, on 1 August 2025. */
  lemma ThreeTransactionsReference()
    ensures ReferenceDate(ThreeTransactions()) == Some(Date(2025, 8, 1))
  {
    var txs := ThreeTransactions();
    assert txs[2] in txs && txs[2].date == Date(2025, 8, 1);
    ReferenceDateUnique(txs, Date(2025, 8, 1));
  }

  /** All three purchases lie in the window ending in August 2025. */
  lemma ThreeTransactionsKept()
    ensures Kept(ThreeTransactions(), Date(2025, 8, 1)) == ThreeTransactions()
  {
    var txs := ThreeTransactions();
    var ref := Date(2025, 8, 1);
    assert txs[..1] == [] + [txs[0]];
    assert txs[..2] == txs[..1] + [txs[1]];
    assert txs == txs[..2] + [txs[2]];
    KeptSnoc([], txs[0], ref);
    KeptSnoc(txs[..1], txs[1], ref);
    KeptSnoc(txs[..2], txs[2], ref);
  }

  /** Each of the three purchases falls under a (customer, month) key of its own. */
  lemma ThreeTransactionsKeys(txs: seq<Transaction>)
    requires txs == ThreeTransactions()
    ensures DistinctKeys(txs, KeyOf) == [(1, YearMonth(2025, 6)), (1, YearMonth(2025, 7)), (2, YearMonth(2025, 8))]
  {
    assert txs[..1] == [] + [txs[0]];
    assert txs[..2] == txs[..1] + [txs[1]];
    assert txs == txs[..2] + [txs[2]];
    DistinctKeysSnoc([], txs[0], KeyOf);
    DistinctKeysSnoc(txs[..1], txs[1], KeyOf);
    DistinctKeysSnoc(txs[..2], txs[2], KeyOf);
  }

  /** 120 dollars earn 90 points, 60 dollars 10 and 130 dollars 110. */
  lemma ThreeTransactionsSums(txs: seq<Transaction>)
    requires txs == ThreeTransactions()
    ensures SumOf(txs, KeyOf, TxPoints, (1, YearMonth(2025, 6))) == 90
    ensures SumOf(txs, KeyOf, TxPoints, (1, YearMonth(2025, 7))) == 10
    ensures SumOf(txs, KeyOf, TxPoints, (2, YearMonth(2025, 8))) == 110
  {
    PointsExamples();
    EarnedTiers(130);
    assert TxPoints(txs[0]) == 90 && TxPoints(txs[1]) == 10 && TxPoints(txs[2]) == 110;
    var june, july, august := (1, YearMonth(2025, 6)), (1, YearMonth(2025, 7)), (2, YearMonth(2025, 8));
    assert KeyOf(txs[0]) == june && KeyOf(txs[1]) == july && KeyOf(txs[2]) == august;
    var p1, p2 := txs[..1], txs[..2];
    assert p1[..0] == [] && p2[..1] == p1 && txs[..2] == p2;
    assert SumOf(p1, KeyOf, TxPoints, june) == 90 && SumOf(p1, KeyOf, TxPoints, july) == 0 && SumOf(p1, KeyOf, TxPoints, august) == 0;
    assert SumOf(p2, KeyOf, TxPoints, june) == 90 && SumOf(p2, KeyOf, TxPoints, july) == 10 && SumOf(p2, KeyOf, TxPoints, august) == 0;
  }

  /** Each key's summary: the customer and month of its purchase, with the points earned. */
  lemma ThreeTransactionsSummaryOf(txs: seq<Transaction>)
    requires txs == ThreeTransactions()
    ensures Occurs(txs, KeyOf, (1, YearMonth(2025, 6))) && Occurs(txs, KeyOf, (1, YearMonth(2025, 7)))
    ensures Occurs(txs, KeyOf, (2, YearMonth(2025, 8)))
    ensures SummaryOf(txs, (1, YearMonth(2025, 6))) == MonthlySummary(1, "Alice", "2025-06", 90)
    ensures SummaryOf(txs, (1, YearMonth(2025, 7))) == MonthlySummary(1, "Alice", "2025-07", 10)
    ensures SummaryOf(txs, (2, YearMonth(2025, 8))) == MonthlySummary(2, "Bob", "2025-08", 110)
  {
    ThreeTransactionsSums(txs);
    assert IntToString(2025) == "2025";
    FirstIndexIs(txs, KeyOf, (1, YearMonth(2025, 6)), 0);
    FirstIndexIs(txs, KeyOf, (1, YearMonth(2025, 7)), 1);
    FirstIndexIs(txs, KeyOf, (2, YearMonth(2025, 8)), 2);
  }

  /** The monthly rows of the test: Alice June 90, Alice July 10, Bob August 110. */
  lemma ThreeTransactionsMonthly()
    ensures MonthlySummaries(ThreeTransactions())
         == [ MonthlySummary(1, "Alice", "2025-06", 90),
              MonthlySummary(1, "Alice", "2025-07", 10),
              MonthlySummary(2, "Bob", "2025-08", 110) ]
  {
    var txs := ThreeTransactions();
    ThreeTransactionsReference();
    ThreeTransactionsKept();
    ThreeTransactionsKeys(txs);
    ThreeTransactionsSummaryOf(txs);
    var ms := Summaries(txs, Date(2025, 8, 1));
    assert |ms| == 3;
    assert ms[0] == MonthlySummary(1, "Alice", "2025-06", 90);
    assert ms[1] == MonthlySummary(1, "Alice", "2025-07", 10);
    assert ms[2] == MonthlySummary(2, "Bob", "2025-08", 110);
  }

  /** Alice's two monthly rows add up to 100 points; Bob's one row is 110. */
  lemma ThreeSummariesTotals(ms: seq<MonthlySummary>)
    requires ms == [ MonthlySummary(1, "Alice", "2025-06", 90),
                     MonthlySummary(1, "Alice", "2025-07", 10),
                     MonthlySummary(2, "Bob", "2025-08", 110) ]
    ensures DistinctKeys(ms, SummaryCustomerId) == [1, 2]
    ensures SumOf(ms, SummaryCustomerId, SummaryPoints, 1) == 100
    ensures SumOf(ms, SummaryCustomerId, SummaryPoints, 2) == 110
  {
    assert ms[..1] == [] + [ms[0]];
    assert ms[..2] == ms[..1] + [ms[1]];
    assert ms == ms[..2] + [ms[2]];
    DistinctKeysSnoc([], ms[0], SummaryCustomerId);
    DistinctKeysSnoc(ms[..1], ms[1], SummaryCustomerId);
    DistinctKeysSnoc(ms[..2], ms[2], SummaryCustomerId);
    SumOfSnoc([], ms[0], SummaryCustomerId, SummaryPoints, 1);
    SumOfSnoc(ms[..1], ms[1], SummaryCustomerId, SummaryPoints, 1);
    SumOfSnoc(ms[..2], ms[2], SummaryCustomerId, SummaryPoints, 1);
    SumOfSnoc([], ms[0], SummaryCustomerId, SummaryPoints, 2);
    SumOfSnoc(ms[..1], ms[1], SummaryCustomerId, SummaryPoints, 2);
    SumOfSnoc(ms[..2], ms[2], SummaryCustomerId, SummaryPoints, 2);
  }

  /** The totals rows of the test: Alice 100, Bob 110. */
  lemma ThreeSummariesTotalsOf(ms: seq<MonthlySummary>)
    requires ms == [ MonthlySummary(1, "Alice", "2025-06", 90),
                     MonthlySummary(1, "Alice", "2025-07", 10),
                     MonthlySummary(2, "Bob", "2025-08", 110) ]
    ensures TotalsOf(ms) == [CustomerTotal(1, "Alice", 100), CustomerTotal(2, "Bob", 110)]
  {
    ThreeSummariesTotals(ms);
    FirstIndexIs(ms, SummaryCustomerId, 1, 0);
    FirstIndexIs(ms, SummaryCustomerId, 2, 2);
  }

  /** End to end, the dashboard of the test shows Alice with 100 points and Bob with 110. */
  lemma ThreeTransactionsTotals()
    ensures TotalsOf(MonthlySummaries(ThreeTransactions()))
         == [CustomerTotal(1, "Alice", 100), CustomerTotal(2, "Bob", 110)]
  {
    ThreeTransactionsMonthly();
    ThreeSummariesTotalsOf(MonthlySummaries(ThreeTransactions()));
  }

  /** The customer selector of the test lists Alice, then Bob. */
  lemma ThreeTransactionsCustomers()
    ensures CustomerList(ThreeTransactions()) == [Customer(1, "Alice"), Customer(2, "Bob")]
  {
    var txs := ThreeTransactions();
    assert txs[..1] == [] + [txs[0]];
    assert txs[..2] == txs[..1] + [txs[1]];
    assert txs == txs[..2] + [txs[2]];
    DistinctKeysSnoc([], txs[0], CustomerIdOf);
    DistinctKeysSnoc(txs[..1], txs[1], CustomerIdOf);
    DistinctKeysSnoc(txs[..2], txs[2], CustomerIdOf);
    assert DistinctKeys(txs, CustomerIdOf) == [1, 2];
    FirstIndexIs(txs, CustomerIdOf, 1, 0);
    FirstIndexIs(txs, CustomerIdOf, 2, 2);
  }
}
