/**
 * `summarizeMonthlyRewards` and its helpers: keep the transactions whose
 * calendar month is the reference month or one of the two before it, and add
 * up their points per customer and month.
 */
module MonthlyRewards {
  import opened Text
  import opened Grouping
  import opened Transactions
  import opened PointCalculator

  /** The source passes n = 3 to `isWithinLastNMonths`. */
  const WindowMonths := 3

  datatype MonthlySummary = MonthlySummary(customerId: int, customerName: string, month: string, points: nat)

  /** A calendar month, such as August 2025. */
  datatype YearMonth = YearMonth(year: int, month: Month)

  function YearMonthOf(date: Date): YearMonth {
    YearMonth(date.year, date.month)
  }

  function PreviousMonth(ym: YearMonth): YearMonth {
    if ym.month == 1 then YearMonth(ym.year - 1, 12) else YearMonth(ym.year, ym.month - 1)
  }

  /** Consecutive calendar months get consecutive numbers. */
  function MonthIndex(ym: YearMonth): int {
    ym.year * 12 + (ym.month - 1)
  }

  lemma MonthIndexInjective(a: YearMonth, b: YearMonth)
    ensures MonthIndex(a) == MonthIndex(b) <==> a == b
  {
  }

  // ---------------------------------------------------------------------------
  // getMonthKey

  /** `getMonthKey`: the year as `String()` prints it, a dash, the month padded to two digits. */
  function GetMonthKey(date: Date): string {
    var year := IntToString(date.year);
    var month := PadStart(NatToString(date.month), 2, '0');
    year + "-" + month
  }

  /** The two decimal digits of a number below 100, tens first. */
  function TwoDigits(m: nat): string
    requires m < 100
  {
    [DigitChar(m / 10), DigitChar(m % 10)]
  }

  /** The year is printed unpadded; the month always takes exactly two digits. */
  lemma MonthKeyFormat(date: Date)
    ensures GetMonthKey(date) == IntToString(date.year) + "-" + TwoDigits(date.month)
  {
    var m: nat := date.month;
    if m < 10 {
      assert NatToString(m) == [DigitChar(m)];
      assert PadStart(NatToString(m), 2, '0') == ['0', DigitChar(m)];
    } else {
      assert NatToString(m) == NatToString(1) + [DigitChar(m % 10)];
      assert PadStart(NatToString(m), 2, '0') == NatToString(m);
    }
  }

  lemma TwoDigitsRoundTrip(m: nat)
    requires m < 100
    ensures ParseNat(TwoDigits(m)) == Some(m)
  {
    var s := TwoDigits(m);
    assert s[..1] == [DigitChar(m / 10)];
  }

  /** Reads a month key back; the partner that shows no two months share a key. */
  function ParseMonthKey(key: string): Option<YearMonth> {
    if |key| < 4 || key[|key| - 3] != '-' then None
    else
      match (ParseInt(key[..|key| - 3]), ParseNat(key[|key| - 2..]))
      case (Some(year), Some(month)) =>
        if 1 <= month <= 12 then Some(YearMonth(year, month)) else None
      case _ => None
  }

  lemma ParseRenderedMonthKey(year: int, month: Month)
    ensures ParseMonthKey(IntToString(year) + "-" + TwoDigits(month)) == Some(YearMonth(year, month))
  {
    var y := IntToString(year);
    var key := y + "-" + TwoDigits(month);
    assert key[..|key| - 3] == y;
    assert key[|key| - 2..] == TwoDigits(month);
    IntToStringRoundTrip(year);
    TwoDigitsRoundTrip(month);
  }

  lemma MonthKeyRoundTrip(date: Date)
    ensures ParseMonthKey(GetMonthKey(date)) == Some(YearMonthOf(date))
  {
    MonthKeyFormat(date);
    ParseRenderedMonthKey(date.year, date.month);
  }

  /** Two dates share a month key exactly when they fall in the same calendar month. */
  lemma MonthKeyInjective(a: Date, b: Date)
    ensures GetMonthKey(a) == GetMonthKey(b) <==> YearMonthOf(a) == YearMonthOf(b)
  {
    MonthKeyRoundTrip(a);
    MonthKeyRoundTrip(b);
  }

  // ---------------------------------------------------------------------------
  // isWithinLastNMonths

  /** The transaction's month lies 0 to n - 1 calendar months before the reference month. */
  predicate IsWithinLastNMonths(txDate: Date, referenceDate: Date, n: int) {
    var monthDifference := (referenceDate.year - txDate.year) * 12 + (referenceDate.month - txDate.month);
    monthDifference >= 0 && monthDifference < n
  }

  /**
   * The window is the reference month and the two calendar months before it;
   * the day of the month plays no part, and later months are outside.
   */
  lemma WindowIsThreeCalendarMonths(txDate: Date, referenceDate: Date)
    ensures IsWithinLastNMonths(txDate, referenceDate, WindowMonths) <==>
      var ref := YearMonthOf(referenceDate);
      YearMonthOf(txDate) in [ref, PreviousMonth(ref), PreviousMonth(PreviousMonth(ref))]
  {
    var tx, ref := YearMonthOf(txDate), YearMonthOf(referenceDate);
    var prev := PreviousMonth(ref);
    assert MonthIndex(prev) == MonthIndex(ref) - 1;
    assert MonthIndex(PreviousMonth(prev)) == MonthIndex(ref) - 2;
    MonthIndexInjective(tx, ref);
    MonthIndexInjective(tx, prev);
    MonthIndexInjective(tx, PreviousMonth(prev));
  }

  // ---------------------------------------------------------------------------
  // summarizeMonthlyRewards

  /** The transactions inside the window, in their original order. */
  function Kept(transactions: seq<Transaction>, referenceDate: Date): seq<Transaction>
    decreases |transactions|
  {
    if transactions == [] then []
    else
      var n := |transactions| - 1;
      var last := transactions[n];
      Kept(transactions[..n], referenceDate)
        + (if IsWithinLastNMonths(last.date, referenceDate, WindowMonths) then [last] else [])
  }

  /** A transaction is kept exactly when it is one of the input and lies in the window. */
  lemma {:induction false} KeptMembers(transactions: seq<Transaction>, referenceDate: Date)
    ensures forall t :: t in Kept(transactions, referenceDate) <==>
      t in transactions && IsWithinLastNMonths(t.date, referenceDate, WindowMonths)
    decreases |transactions|
  {
    if transactions != [] {
      var n := |transactions| - 1;
      KeptMembers(transactions[..n], referenceDate);
      assert transactions == transactions[..n] + [transactions[n]];
    }
  }

  /** Filtering one more transaction appends it exactly when it lies in the window. */
  lemma KeptSnoc(transactions: seq<Transaction>, t: Transaction, referenceDate: Date)
    ensures Kept(transactions + [t], referenceDate)
         == Kept(transactions, referenceDate) + if IsWithinLastNMonths(t.date, referenceDate, WindowMonths) then [t] else []
  {
    var s := transactions + [t];
    assert s[..|s| - 1] == transactions;
  }

  /** One more input element inside the window is appended to the kept ones. */
  lemma KeptPrefixIn(transactions: seq<Transaction>, i: int, referenceDate: Date)
    requires 0 <= i < |transactions|
    requires IsWithinLastNMonths(transactions[i].date, referenceDate, WindowMonths)
    ensures Kept(transactions[..i + 1], referenceDate) == Kept(transactions[..i], referenceDate) + [transactions[i]]
  {
    assert transactions[..i + 1] == transactions[..i] + [transactions[i]];
    KeptSnoc(transactions[..i], transactions[i], referenceDate);
  }

  /** One more input element outside the window changes nothing. */
  lemma KeptPrefixOut(transactions: seq<Transaction>, i: int, referenceDate: Date)
    requires 0 <= i < |transactions|
    requires !IsWithinLastNMonths(transactions[i].date, referenceDate, WindowMonths)
    ensures Kept(transactions[..i + 1], referenceDate) == Kept(transactions[..i], referenceDate)
  {
    assert transactions[..i + 1] == transactions[..i] + [transactions[i]];
    KeptSnoc(transactions[..i], transactions[i], referenceDate);
  }

  /** Filtering keeps the order: it distributes over concatenation. */
  lemma {:induction false} KeptAppend(a: seq<Transaction>, b: seq<Transaction>, referenceDate: Date)
    ensures Kept(a + b, referenceDate) == Kept(a, referenceDate) + Kept(b, referenceDate)
    decreases |b|
  {
    if b == [] {
      assert a + b == a;
    } else {
      var n := |b| - 1;
      KeptAppend(a, b[..n], referenceDate);
      assert a + b == (a + b[..n]) + [b[n]];
      assert b == b[..n] + [b[n]];
      KeptSnoc(a + b[..n], b[n], referenceDate);
      KeptSnoc(b[..n], b[n], referenceDate);
    }
  }

  /**
   * The grouping key. The source files a transaction under the string
   * `${customerId}-${getMonthKey(date)}`; SameGroupIff shows that two
   * transactions get the same string exactly when they agree on this pair.
   */
  function KeyOf(t: Transaction): (int, YearMonth) {
    (t.customerId, YearMonthOf(t.date))
  }

  /** The string the source actually files a transaction under. */
  function MapKey(t: Transaction): string {
    IntToString(t.customerId) + "-" + GetMonthKey(t.date)
  }

  /**
   * Grouping by the source's string key is grouping by customer and calendar
   * month; in particular the month key alone never merges two months.
   */
  lemma SameGroupIff(a: Transaction, b: Transaction)
    ensures MapKey(a) == MapKey(b) <==> KeyOf(a) == KeyOf(b)
  {
    DashJoinInjective(a.customerId, GetMonthKey(a.date), b.customerId, GetMonthKey(b.date));
    MonthKeyInjective(a.date, b.date);
  }

  function TxPoints(t: Transaction): nat {
    Points(t.amount)
  }

  /** A summary's (customer, month key) pair; the transaction's is TxSummaryKey. */
  function SummaryKey(s: MonthlySummary): (int, string) {
    (s.customerId, s.month)
  }

  function TxSummaryKey(t: Transaction): (int, string) {
    (t.customerId, GetMonthKey(t.date))
  }

  function SummaryPoints(s: MonthlySummary): nat {
    s.points
  }

  /**
   * The summary the source builds for key k: customer and month from the
   * first kept transaction filed under k, points added up over all of them.
   */
  function SummaryOf(kept: seq<Transaction>, k: (int, YearMonth)): MonthlySummary
    requires Occurs(kept, KeyOf, k)
  {
    var first := kept[FirstIndex(kept, KeyOf, k)];
    MonthlySummary(first.customerId, first.customerName, GetMonthKey(first.date), SumOf(kept, KeyOf, TxPoints, k))
  }

  /** What `summarizeMonthlyRewards` returns: one summary per key, in order of first appearance. */
  function Summaries(transactions: seq<Transaction>, referenceDate: Date): seq<MonthlySummary> {
    var kept := Kept(transactions, referenceDate);
    var keys := DistinctKeys(kept, KeyOf);
    DistinctKeysSpec(kept, KeyOf);
    seq(|keys|, j requires 0 <= j < |keys| => SummaryOf(kept, keys[j]))
  }

  /**
   * One more kept transaction: a new key gets a summary seeded from it; a key
   * already present keeps its customer, name and month, and only its points grow.
   */
  lemma SummaryOfSnoc(kept: seq<Transaction>, t: Transaction, k: (int, YearMonth))
    requires Occurs(kept + [t], KeyOf, k)
    ensures Occurs(kept, KeyOf, k) ==>
      SummaryOf(kept + [t], k)
        == SummaryOf(kept, k).(points := SummaryOf(kept, k).points + if KeyOf(t) == k then TxPoints(t) else 0)
    ensures !Occurs(kept, KeyOf, k) ==>
      KeyOf(t) == k
      && SummaryOf(kept + [t], k) == MonthlySummary(t.customerId, t.customerName, GetMonthKey(t.date), TxPoints(t))
  {
    var s := kept + [t];
    assert s[..|s| - 1] == kept;
    OccursSnoc(s, KeyOf);
    if !Occurs(kept, KeyOf, k) {
      SumOfAbsent(kept, KeyOf, TxPoints, k);
    }
  }

  /**
   * The map the source keeps, read as a whole: its keys are exactly ks, and
   * each key holds the summary of the kept transactions filed under it.
   */
  ghost predicate Summarizes(byKey: map<(int, YearMonth), MonthlySummary>, ks: seq<(int, YearMonth)>, kept: seq<Transaction>) {
    && (forall k :: k in byKey <==> k in ks)
    && (forall j :: 0 <= j < |ks| ==> Occurs(kept, KeyOf, ks[j]) && byKey[ks[j]] == SummaryOf(kept, ks[j]))
  }

  /**
   * One step of the source's loop body on its map, for a transaction inside
   * the window: create the entry with no points if the key is new, then add
   * the transaction's points to it.
   */
  function File(byKey: map<(int, YearMonth), MonthlySummary>, t: Transaction): map<(int, YearMonth), MonthlySummary> {
    var k := KeyOf(t);
    var seed := if k in byKey then byKey[k] else MonthlySummary(t.customerId, t.customerName, GetMonthKey(t.date), 0);
    byKey[k := seed.(points := seed.points + TxPoints(t))]
  }

  /**
   * The source's two writes, creating the entry with no points when the key
   * is new and then adding the transaction's points to it, amount to File.
   */
  lemma FiledInPlace(before: map<(int, YearMonth), MonthlySummary>, t: Transaction,
                     after: map<(int, YearMonth), MonthlySummary>)
    requires var k := KeyOf(t);
      var created := if k in before then before
                     else before[k := MonthlySummary(t.customerId, t.customerName, GetMonthKey(t.date), 0)];
      after == created[k := created[k].(points := created[k].points + TxPoints(t))]
    ensures after == File(before, t)
  {
  }

  /** Filing one more transaction keeps the map a summary of the kept ones. */
  lemma FilingPreservesSummaries(byKey: map<(int, YearMonth), MonthlySummary>, kept: seq<Transaction>, t: Transaction)
    requires Summarizes(byKey, DistinctKeys(kept, KeyOf), kept)
    ensures Summarizes(File(byKey, t), DistinctKeys(kept + [t], KeyOf), kept + [t])
  {
    var k := KeyOf(t);
    var after := File(byKey, t);
    var ks, ks' := DistinctKeys(kept, KeyOf), DistinctKeys(kept + [t], KeyOf);
    DistinctKeysSnoc(kept, t, KeyOf);
    assert ks' == if k in ks then ks else ks + [k];
    forall k' ensures k' in after <==> k' in ks' {
    }
    forall j | 0 <= j < |ks'|
      ensures Occurs(kept + [t], KeyOf, ks'[j]) && after[ks'[j]] == SummaryOf(kept + [t], ks'[j])
    {
      var kj := ks'[j];
      DistinctKeysSound(kept + [t], KeyOf, j);
      SummaryOfSnoc(kept, t, kj);
      if j < |ks| {
        assert kj == ks[j] && Occurs(kept, KeyOf, kj);
      } else if Occurs(kept, KeyOf, kj) {
        // a key of kept is already listed, so it cannot be the new one
        var x :| 0 <= x < |kept| && KeyOf(kept[x]) == kj;
        DistinctKeysComplete(kept, KeyOf, x);
        assert false;
      }
    }
  }

  /**
   * The keys and the map after the source's loop has looked at the first n
   * transactions: a transaction outside the window is skipped, one inside is
   * filed, and its key is appended to the insertion order if it is new.
   */
  function Filed(transactions: seq<Transaction>, n: int, referenceDate: Date): (seq<(int, YearMonth)>, map<(int, YearMonth), MonthlySummary>)
    requires 0 <= n <= |transactions|
    decreases n
  {
    if n == 0 then ([], map[])
    else
      var (keys, byKey) := Filed(transactions, n - 1, referenceDate);
      var t := transactions[n - 1];
      if !IsWithinLastNMonths(t.date, referenceDate, WindowMonths) then (keys, byKey)
      else if KeyOf(t) in byKey then (keys, File(byKey, t))
      else (keys + [KeyOf(t)], File(byKey, t))
  }

  /**
   * The loop's invariant: after n transactions, the keys are the distinct
   * keys of the kept ones in first-seen order, and the map holds exactly
   * those keys, each with the summary of its transactions.
   */
  lemma {:induction false} FiledSummarizes(transactions: seq<Transaction>, n: int, referenceDate: Date)
    requires 0 <= n <= |transactions|
    ensures var kept := Kept(transactions[..n], referenceDate);
      && Filed(transactions, n, referenceDate).0 == DistinctKeys(kept, KeyOf)
      && Summarizes(Filed(transactions, n, referenceDate).1, DistinctKeys(kept, KeyOf), kept)
    decreases n
  {
    if n == 0 {
      assert transactions[..n] == [];
    } else {
      var i := n - 1;
      var t := transactions[i];
      FiledSummarizes(transactions, i, referenceDate);
      var kept := Kept(transactions[..i], referenceDate);
      var (keys, byKey) := Filed(transactions, i, referenceDate);
      if IsWithinLastNMonths(t.date, referenceDate, WindowMonths) {
        KeptPrefixIn(transactions, i, referenceDate);
        DistinctKeysSnoc(kept, t, KeyOf);
        assert KeyOf(t) in byKey <==> KeyOf(t) in keys;
        FilingPreservesSummaries(byKey, kept, t);
      } else {
        KeptPrefixOut(transactions, i, referenceDate);
      }
    }
  }

  /** Reading out a map that summarizes the kept transactions gives the summaries. */
  lemma ValuesOfSummaries(byKey: map<(int, YearMonth), MonthlySummary>, transactions: seq<Transaction>, referenceDate: Date)
    requires var kept := Kept(transactions, referenceDate);
      Summarizes(byKey, DistinctKeys(kept, KeyOf), kept)
    ensures var ks := DistinctKeys(Kept(transactions, referenceDate), KeyOf);
      && (forall j :: 0 <= j < |ks| ==> ks[j] in byKey)
      && ValuesInOrder(byKey, ks) == Summaries(transactions, referenceDate)
  {
    ValuesInOrderAt(byKey, DistinctKeys(Kept(transactions, referenceDate), KeyOf));
  }

  /**
   * `summarizeMonthlyRewards`: one pass over the transactions, filing each
   * kept one in a map from key to summary whose keys remember their
   * insertion order; the summaries are read out in that order.
   */
  method SummarizeMonthlyRewards(transactions: seq<Transaction>, referenceDate: Date)
    returns (summaries: seq<MonthlySummary>)
    ensures summaries == Summaries(transactions, referenceDate)
  {
    var keys: seq<(int, YearMonth)> := [];
    var summariesByKey: map<(int, YearMonth), MonthlySummary> := map[];
    var i := 0;
    while i < |transactions|
      invariant 0 <= i <= |transactions|
      invariant (keys, summariesByKey) == Filed(transactions, i, referenceDate)
    {
      var transaction := transactions[i];

      if IsWithinLastNMonths(transaction.date, referenceDate, WindowMonths) {
        var monthKey := GetMonthKey(transaction.date);
        var mapKey := (transaction.customerId, YearMonthOf(transaction.date));
        var pointsForTransaction := CalculatePoints(transaction.amount);
        ghost var before := summariesByKey;

        if mapKey !in summariesByKey {
          summariesByKey := summariesByKey[mapKey := MonthlySummary(transaction.customerId, transaction.customerName, monthKey, 0)];
          keys := keys + [mapKey];
        }

        var summary := summariesByKey[mapKey];
        summariesByKey := summariesByKey[mapKey := summary.(points := summary.points + pointsForTransaction)];
        FiledInPlace(before, transaction, summariesByKey);
      }
      i := i + 1;
    }
    FiledSummarizes(transactions, i, referenceDate);
    assert transactions[..i] == transactions;
    ValuesOfSummaries(summariesByKey, transactions, referenceDate);
    summaries := ValuesInOrder(summariesByKey, keys);
  }

  // ---------------------------------------------------------------------------
  // Properties of the summaries

  /** No summaries exactly when no transaction falls in the window (so none for no transactions). */
  lemma SummariesEmptyIff(transactions: seq<Transaction>, referenceDate: Date)
    ensures Summaries(transactions, referenceDate) == [] <==>
      forall t :: t in transactions ==> !IsWithinLastNMonths(t.date, referenceDate, WindowMonths)
  {
    var kept := Kept(transactions, referenceDate);
    KeptMembers(transactions, referenceDate);
    DistinctKeysSpec(kept, KeyOf);
    if kept != [] {
      assert kept[0] in kept;
      assert KeyOf(kept[0]) in DistinctKeys(kept, KeyOf);
    }
  }

  /** The summary for key k has the customer and the month key of every transaction filed under k. */
  lemma SummaryOfKey(kept: seq<Transaction>, k: (int, YearMonth), t: Transaction)
    requires Occurs(kept, KeyOf, k) && KeyOf(t) == k
    ensures SummaryKey(SummaryOf(kept, k)) == TxSummaryKey(t)
  {
    var first := kept[FirstIndex(kept, KeyOf, k)];
    assert YearMonthOf(first.date) == YearMonthOf(t.date);
    MonthKeyInjective(first.date, t.date);
  }

  /** No two summaries share a (customer, month key) pair. */
  lemma SummariesDistinct(transactions: seq<Transaction>, referenceDate: Date, i: int, j: int)
    requires 0 <= i < j < |Summaries(transactions, referenceDate)|
    ensures SummaryKey(Summaries(transactions, referenceDate)[i]) != SummaryKey(Summaries(transactions, referenceDate)[j])
  {
    var kept := Kept(transactions, referenceDate);
    var keys := DistinctKeys(kept, KeyOf);
    DistinctKeysSpec(kept, KeyOf);
    var a, b := kept[FirstIndex(kept, KeyOf, keys[i])], kept[FirstIndex(kept, KeyOf, keys[j])];
    assert KeyOf(a) == keys[i] != keys[j] == KeyOf(b);
    MonthKeyInjective(a.date, b.date);
  }

  /** Every summary stands for at least one transaction inside the window. */
  lemma SummaryBacked(transactions: seq<Transaction>, referenceDate: Date, i: int)
    requires 0 <= i < |Summaries(transactions, referenceDate)|
    ensures exists t :: t in transactions && IsWithinLastNMonths(t.date, referenceDate, WindowMonths)
                        && TxSummaryKey(t) == SummaryKey(Summaries(transactions, referenceDate)[i])
  {
    var kept := Kept(transactions, referenceDate);
    var keys := DistinctKeys(kept, KeyOf);
    DistinctKeysSound(kept, KeyOf, i);
    KeptMembers(transactions, referenceDate);
    var first := kept[FirstIndex(kept, KeyOf, keys[i])];
    assert first in kept;
    assert TxSummaryKey(first) == SummaryKey(Summaries(transactions, referenceDate)[i]);
  }

  /** Every transaction inside the window is counted in some summary of its customer and month. */
  lemma SummaryCovers(transactions: seq<Transaction>, referenceDate: Date, t: Transaction)
    requires t in transactions && IsWithinLastNMonths(t.date, referenceDate, WindowMonths)
    ensures exists i :: 0 <= i < |Summaries(transactions, referenceDate)|
                        && SummaryKey(Summaries(transactions, referenceDate)[i]) == TxSummaryKey(t)
  {
    var kept := Kept(transactions, referenceDate);
    var keys := DistinctKeys(kept, KeyOf);
    KeptMembers(transactions, referenceDate);
    var x :| 0 <= x < |kept| && kept[x] == t;
    DistinctKeysComplete(kept, KeyOf, x);
    var i :| 0 <= i < |keys| && keys[i] == KeyOf(t);
    DistinctKeysSound(kept, KeyOf, i);
    SummaryOfKey(kept, keys[i], t);
    assert SummaryKey(Summaries(transactions, referenceDate)[i]) == TxSummaryKey(t);
  }

  /**
   * s is the summary the source builds from kept[p], the first kept
   * transaction of its customer and month: their customer, name and month
   * key, and the points of every kept transaction in that customer and month.
   */
  predicate SeededBy(kept: seq<Transaction>, s: MonthlySummary, p: int) {
    && 0 <= p < |kept|
    && IsFirstIndex(kept, KeyOf, KeyOf(kept[p]), p)
    && SummaryKey(s) == TxSummaryKey(kept[p])
    && s.customerName == kept[p].customerName
    && s.points == SumOf(kept, KeyOf, TxPoints, KeyOf(kept[p]))
  }

  /** Every summary is seeded by the first kept transaction of its customer and month. */
  lemma SummariesSeededByFirstSeen(transactions: seq<Transaction>, referenceDate: Date, i: int)
    requires 0 <= i < |Summaries(transactions, referenceDate)|
    ensures exists p :: SeededBy(Kept(transactions, referenceDate), Summaries(transactions, referenceDate)[i], p)
  {
    var kept := Kept(transactions, referenceDate);
    var keys := DistinctKeys(kept, KeyOf);
    DistinctKeysSound(kept, KeyOf, i);
    var p := FirstIndex(kept, KeyOf, keys[i]);
    assert SeededBy(kept, Summaries(transactions, referenceDate)[i], p);
  }

  /** A summary seeded by kept[p] is the summary of kept[p]'s key, the i-th distinct key. */
  lemma SeededByKey(transactions: seq<Transaction>, referenceDate: Date, i: int, p: int)
    requires 0 <= i < |Summaries(transactions, referenceDate)|
    requires SeededBy(Kept(transactions, referenceDate), Summaries(transactions, referenceDate)[i], p)
    ensures KeyOf(Kept(transactions, referenceDate)[p]) == DistinctKeys(Kept(transactions, referenceDate), KeyOf)[i]
  {
    var kept := Kept(transactions, referenceDate);
    var keys := DistinctKeys(kept, KeyOf);
    DistinctKeysSound(kept, KeyOf, i);
    var first := kept[FirstIndex(kept, KeyOf, keys[i])];
    assert TxSummaryKey(first) == TxSummaryKey(kept[p]);
    MonthKeyInjective(first.date, kept[p].date);
  }

  /**
   * Summaries come out in the order in which their (customer, month) was
   * first seen: of two summaries, the earlier one is seeded by an earlier
   * kept transaction.
   */
  lemma SummariesInFirstSeenOrder(transactions: seq<Transaction>, referenceDate: Date, i: int, j: int)
    requires 0 <= i < j < |Summaries(transactions, referenceDate)|
    ensures forall p, q ::
      (SeededBy(Kept(transactions, referenceDate), Summaries(transactions, referenceDate)[i], p)
       && SeededBy(Kept(transactions, referenceDate), Summaries(transactions, referenceDate)[j], q))
      ==> p < q
  {
    var kept, ss := Kept(transactions, referenceDate), Summaries(transactions, referenceDate);
    forall p, q | SeededBy(kept, ss[i], p) && SeededBy(kept, ss[j], q)
      ensures p < q
    {
      SeededByKey(transactions, referenceDate, i, p);
      SeededByKey(transactions, referenceDate, j, q);
      DistinctKeysFirstSeenOrder(kept, KeyOf, i, j, p, q);
    }
  }

  /** The summaries account for every point earned in the window, no more and no less. */
  lemma SummariesConservePoints(transactions: seq<Transaction>, referenceDate: Date)
    ensures Total(Summaries(transactions, referenceDate), SummaryPoints)
         == Total(Kept(transactions, referenceDate), TxPoints)
  {
    var kept := Kept(transactions, referenceDate);
    var keys := DistinctKeys(kept, KeyOf);
    TotalOfGroups(Summaries(transactions, referenceDate), SummaryPoints, keys, kept, KeyOf, TxPoints);
    GroupTotalConserves(kept, KeyOf, TxPoints);
  }

  // ---------------------------------------------------------------------------
  // The unit tests' scenarios

  /** The six purchases of the aggregation test: Alice in June (twice), July and May, Bob in August and December 2024. */
  function SixTransactions(): seq<Transaction> {
    [ Transaction("t1", 1, "Alice", Date(2025, 6, 10), 120.0),
      Transaction("t2", 1, "Alice", Date(2025, 6, 15), 60.0),
      Transaction("t3", 1, "Alice", Date(2025, 7, 1), 200.0),
      Transaction("t4", 1, "Alice", Date(2025, 5, 30), 120.0),
      Transaction("t5", 2, "Bob", Date(2025, 8, 5), 101.0),
      Transaction("t6", 2, "Bob", Date(2024, 12, 1), 300.0) ]
  }

  lemma MonthKeyExamples()
    ensures GetMonthKey(Date(2025, 6, 10)) == "2025-06"
    ensures GetMonthKey(Date(2025, 7, 1)) == "2025-07"
    ensures GetMonthKey(Date(2025, 8, 5)) == "2025-08"
  {
    assert IntToString(2025) == "2025";
  }

  /** The purchases of SixTransactions inside the window of 15 August 2025: all but May and December 2024. */
  lemma SixTransactionsKept()
    ensures var txs := SixTransactions();
      Kept(txs, Date(2025, 8, 15)) == [txs[0], txs[1], txs[2], txs[4]]
  {
    var txs := SixTransactions();
    var ref := Date(2025, 8, 15);
    assert txs[..1] == [] + [txs[0]];
    assert txs[..2] == txs[..1] + [txs[1]];
    assert txs[..3] == txs[..2] + [txs[2]];
    assert txs[..4] == txs[..3] + [txs[3]];
    assert txs[..5] == txs[..4] + [txs[4]];
    assert txs == txs[..5] + [txs[5]];
    KeptSnoc([], txs[0], ref);
    KeptSnoc(txs[..1], txs[1], ref);
    KeptSnoc(txs[..2], txs[2], ref);
    KeptSnoc(txs[..3], txs[3], ref);
    KeptSnoc(txs[..4], txs[4], ref);
    KeptSnoc(txs[..5], txs[5], ref);
  }

  /** Alice's June purchases share a key; July and Bob's August each add one. */
  lemma SixTransactionsKeys(kept: seq<Transaction>)
    requires kept == [SixTransactions()[0], SixTransactions()[1], SixTransactions()[2], SixTransactions()[4]]
    ensures DistinctKeys(kept, KeyOf) == [(1, YearMonth(2025, 6)), (1, YearMonth(2025, 7)), (2, YearMonth(2025, 8))]
  {
    assert kept[..1] == [] + [kept[0]];
    assert kept[..2] == kept[..1] + [kept[1]];
    assert kept[..3] == kept[..2] + [kept[2]];
    assert kept == kept[..3] + [kept[3]];
    DistinctKeysSnoc([], kept[0], KeyOf);
    DistinctKeysSnoc(kept[..1], kept[1], KeyOf);
    DistinctKeysSnoc(kept[..2], kept[2], KeyOf);
    DistinctKeysSnoc(kept[..3], kept[3], KeyOf);
  }

  /** 120 + 60 dollars earn 90 + 10 points, 200 dollars earn 250, 101 dollars earn 52. */
  lemma SixTransactionsSums(kept: seq<Transaction>)
    requires kept == [SixTransactions()[0], SixTransactions()[1], SixTransactions()[2], SixTransactions()[4]]
    ensures SumOf(kept, KeyOf, TxPoints, (1, YearMonth(2025, 6))) == 100
    ensures SumOf(kept, KeyOf, TxPoints, (1, YearMonth(2025, 7))) == 250
    ensures SumOf(kept, KeyOf, TxPoints, (2, YearMonth(2025, 8))) == 52
  {
    PointsExamples();
    EarnedTiers(200);
    assert TxPoints(kept[0]) == 90 && TxPoints(kept[1]) == 10;
    assert TxPoints(kept[2]) == 250 && TxPoints(kept[3]) == 52;
    var june, july, august := (1, YearMonth(2025, 6)), (1, YearMonth(2025, 7)), (2, YearMonth(2025, 8));
    assert KeyOf(kept[0]) == KeyOf(kept[1]) == june && KeyOf(kept[2]) == july && KeyOf(kept[3]) == august;
    var p1, p2, p3 := kept[..1], kept[..2], kept[..3];
    assert p1[..0] == [] && p2[..1] == p1 && p3[..2] == p2 && kept[..3] == p3;
    assert SumOf(p1, KeyOf, TxPoints, june) == 90 && SumOf(p1, KeyOf, TxPoints, july) == 0 && SumOf(p1, KeyOf, TxPoints, august) == 0;
    assert SumOf(p2, KeyOf, TxPoints, june) == 100 && SumOf(p2, KeyOf, TxPoints, july) == 0 && SumOf(p2, KeyOf, TxPoints, august) == 0;
    assert SumOf(p3, KeyOf, TxPoints, june) == 100 && SumOf(p3, KeyOf, TxPoints, july) == 250 && SumOf(p3, KeyOf, TxPoints, august) == 0;
  }

  /**
   * With reference date 15 August 2025, May and December 2024 fall outside
   * the window, and the result is Alice June 100, Alice July 250 and Bob
   * August 52, in that order.
   */
  lemma SummarizeExample()
    ensures Summaries(SixTransactions(), Date(2025, 8, 15))
         == [ MonthlySummary(1, "Alice", "2025-06", 100),
              MonthlySummary(1, "Alice", "2025-07", 250),
              MonthlySummary(2, "Bob", "2025-08", 52) ]
  {
    var txs := SixTransactions();
    SixTransactionsKept();
    var kept := [txs[0], txs[1], txs[2], txs[4]];
    SixTransactionsKeys(kept);
    SixTransactionsSums(kept);
    MonthKeyExamples();
    var ks := DistinctKeys(kept, KeyOf);
    FirstIndexIs(kept, KeyOf, ks[0], 0);
    FirstIndexIs(kept, KeyOf, ks[1], 2);
    FirstIndexIs(kept, KeyOf, ks[2], 3);
  }

  /** The test where every purchase is older than three months: nothing is reported. */
  lemma SummarizeOldOnlyExample()
    ensures Summaries([ Transaction("old1", 1, "Alice", Date(2025, 1, 10), 200.0),
                        Transaction("old2", 2, "Bob", Date(2024, 12, 1), 300.0) ],
                      Date(2025, 8, 15)) == []
  {
    SummariesEmptyIff([ Transaction("old1", 1, "Alice", Date(2025, 1, 10), 200.0),
                        Transaction("old2", 2, "Bob", Date(2024, 12, 1), 300.0) ],
                      Date(2025, 8, 15));
  }
}
