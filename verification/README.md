# Customer rewards: a verified model of the point calculation

The application is a React dashboard for a retailer's loyalty programme. A purchase earns 1 point for every whole dollar above 50, up to 100, and 2 more points for every whole dollar above 100. The dashboard loads the purchase transactions and keeps the ones in a rolling window: the month of the latest purchase and the two calendar months before it. It shows each customer's points per month and their total over the window.

This project models the computational core of that dashboard in Dafny:

- `calculatePoints` is modelled in `point_calculator.dfy`.
- `getMonthKey`, `isWithinLastNMonths` and `summarizeMonthlyRewards` are modelled in `monthly_rewards.dfy`.
- The four `useMemo` derivations of `RewardsDashboard` are modelled in `dashboard.dfy`. They are the customer list, the reference date, the monthly summaries and the per-customer totals.

Three supporting modules complete the project:

- `transactions.dfy` defines the records.
- `text.dfy` renders integers and pads strings the way JavaScript's `String()` and `padStart` do, for integers below 10^21 in magnitude. It also has a parser as the inverse partner of that rendering.
- `grouping.dfy` holds the keyed fold that the source writes twice. That fold walks a sequence into a JavaScript `Map`, creates each entry from the first element carrying its key, adds each element's value into that entry, and reads the entries out in insertion order.

The source's imperative code stays imperative in the model. `calculatePoints` is a method with a guarded accumulator. `summarizeMonthlyRewards`, `customers` and `customerTotals` are methods whose `while` loops update a key sequence and a `map`. The key sequence is the Map's insertion order.

Each method is proved equal to a declarative specification. For example, `Summaries` is one summary per distinct (customer, month) key among the kept transactions. Its customer and name come from the first such transaction, and its points are the sum over all of them.

Lemmas then state what the source promises about those specifications:

- the tiers;
- the window;
- one entry per key;
- first-seen names and order;
- conservation of points;
- the unit tests' concrete scenarios.

## Model

| member | source | states |
|---|---|---|
| PointCalculator.CalculatePoints | src/utils/calculatePoints.js:1-14 | the two guarded additions on the floored amount give exactly the per-dollar rule `Points(amount)`, so the result is never negative |
| PointCalculator.EarnedTiers | src/utils/calculatePoints.js:5-11 | the per-dollar rule in closed form: 0 up to 50 whole dollars, w - 50 up to 100, 50 + 2(w - 100) above |
| PointCalculator.PointsAtMostFifty | src/utils/calculatePoints.js:2-13 | an amount whose floor is at most 50 earns 0 points |
| PointCalculator.PointsMiddleTier | src/utils/calculatePoints.js:5-7 | for 50 < floor(amount) <= 100 the points are floor(amount) - 50 |
| PointCalculator.PointsUpperTier | src/utils/calculatePoints.js:5-11 | above 100 whole dollars the points are 50 + 2 * (floor(amount) - 100) |
| PointCalculator.PointsIgnoreCents | src/utils/calculatePoints.js:2 | an amount earns what its floor earns |
| PointCalculator.EarnedMonotone | src/utils/calculatePoints.js:5-11 | more whole dollars never earn fewer points |
| PointCalculator.PointsMonotone | src/utils/calculatePoints.js:5-11 | a larger amount never earns fewer points |
| PointCalculator.PointsExamples | src/utils/calculatePoints.test.js:4-30 | 0, 49, 50 give 0; 51 gives 1, 60 gives 10, 100 gives 50; 120 gives 90, 101 gives 52; 120.99 gives 90 and 50.9 gives 0 |
| Text.NatToStringDigits | src/utils/summarizeMonthlyRewards.js:6 | the rendering of a natural number consists of decimal digits only |
| Text.IntToStringShape | src/utils/summarizeMonthlyRewards.js:4-7 | a rendered integer starts with a minus sign exactly when it is negative, and is digits after that |
| Text.PadStartShape | src/utils/summarizeMonthlyRewards.js:6 | padding yields max(width, length) characters, keeps the string as the suffix and only adds fill characters in front |
| Text.NatToStringRoundTrip | src/utils/summarizeMonthlyRewards.js:6 | parsing the rendering of n gives back n |
| Text.IntToStringRoundTrip | src/utils/summarizeMonthlyRewards.js:4-7 | parsing the rendering of an integer gives it back |
| Text.IntToStringInjective | src/utils/summarizeMonthlyRewards.js:35 | two integers render alike exactly when they are equal |
| Text.DashJoinInjective | src/utils/summarizeMonthlyRewards.js:35 | `id + "-" + rest` strings are equal exactly when both ids and both rests are equal |
| MonthlyRewards.MonthIndexInjective | src/utils/summarizeMonthlyRewards.js:16 | the month count year * 12 + month - 1 tells calendar months apart |
| MonthlyRewards.MonthKeyFormat | src/utils/summarizeMonthlyRewards.js:3-8 | the month key is the year as printed, a dash, and the month as exactly two digits |
| MonthlyRewards.TwoDigitsRoundTrip | src/utils/summarizeMonthlyRewards.js:6 | a two-digit month reads back as the month |
| MonthlyRewards.ParseRenderedMonthKey | src/utils/summarizeMonthlyRewards.js:7 | the key of a year and month parses back to that year and month |
| MonthlyRewards.MonthKeyRoundTrip | src/utils/summarizeMonthlyRewards.js:3-8 | reading a date's month key back gives its calendar month |
| MonthlyRewards.MonthKeyInjective | src/utils/summarizeMonthlyRewards.js:3-8 | two dates share a month key if and only if they are in the same calendar month |
| MonthlyRewards.WindowIsThreeCalendarMonths | src/utils/summarizeMonthlyRewards.js:10-20 | with n = 3 a date is in the window iff its month is the reference month or one of the two before it; the day and later months never qualify |
| MonthlyRewards.KeptMembers | src/utils/summarizeMonthlyRewards.js:27-32 | a transaction is kept iff it is in the input and in the window |
| MonthlyRewards.KeptSnoc | src/utils/summarizeMonthlyRewards.js:30-32 | loop-step unfolding of the filter: one more transaction is appended to the kept ones exactly when it is in the window |
| MonthlyRewards.KeptPrefixIn | src/utils/summarizeMonthlyRewards.js:30-32 | a transaction in the window extends the kept prefix by itself |
| MonthlyRewards.KeptPrefixOut | src/utils/summarizeMonthlyRewards.js:30-32 | a transaction outside the window leaves the kept prefix unchanged |
| MonthlyRewards.KeptAppend | src/utils/summarizeMonthlyRewards.js:27-32 | filtering keeps the input order: it distributes over concatenation |
| MonthlyRewards.SameGroupIff | src/utils/summarizeMonthlyRewards.js:34-35 | two transactions get the same `${customerId}-${monthKey}` string iff they have the same customer and calendar month |
| MonthlyRewards.SummaryOfSnoc | src/utils/summarizeMonthlyRewards.js:38-48 | a later transaction of a key changes only that summary's points, by its own points; a new key's summary is seeded from the transaction |
| MonthlyRewards.FiledInPlace | src/utils/summarizeMonthlyRewards.js:38-48 | the insert-if-absent followed by the in-place points update is one filing step |
| MonthlyRewards.FilingPreservesSummaries | src/utils/summarizeMonthlyRewards.js:38-48 | filing one more kept transaction keeps the map equal to the per-key summaries of the kept transactions so far |
| MonthlyRewards.FiledSummarizes | src/utils/summarizeMonthlyRewards.js:25-49 | after any prefix, the insertion-order keys are the distinct keys of the kept prefix and the map holds their summaries |
| Grouping.ValuesInOrderEachEntryOnce | src/utils/summarizeMonthlyRewards.js:51 | when the insertion order lists each key of the map once, the read-out has as many values as the map has entries, and each entry's value sits at its key's position: every entry appears exactly once, in insertion order |
| MonthlyRewards.ValuesOfSummaries | src/utils/summarizeMonthlyRewards.js:51 | reading out a map that summarizes the kept transactions yields `Summaries` |
| MonthlyRewards.SummarizeMonthlyRewards | src/utils/summarizeMonthlyRewards.js:24-52 | the loop over the transactions returns exactly `Summaries(transactions, referenceDate)` |
| MonthlyRewards.SummariesEmptyIff | src/utils/summarizeMonthlyRewards.js:25-51 | the result is empty iff no transaction falls in the window (in particular for no transactions) |
| MonthlyRewards.SummaryOfKey | src/utils/summarizeMonthlyRewards.js:38-44 | a key's summary carries the customer and month key of every transaction filed under it |
| MonthlyRewards.SummariesDistinct | src/utils/summarizeMonthlyRewards.js:35-45 | no two summaries share a (customer, month key) pair |
| MonthlyRewards.SummaryBacked | src/utils/summarizeMonthlyRewards.js:30-45 | every summary stands for some input transaction in the window with its customer and month key |
| MonthlyRewards.SummaryCovers | src/utils/summarizeMonthlyRewards.js:30-48 | every transaction in the window has a summary of its customer and month key |
| MonthlyRewards.SummariesSeededByFirstSeen | src/utils/summarizeMonthlyRewards.js:38-48 | a summary's customer, name and month come from the first kept transaction with its key, and its points are the sum over all of them |
| MonthlyRewards.SeededByKey | src/utils/summarizeMonthlyRewards.js:38-44 | a summary seeded by a kept transaction is the summary of that transaction's (customer, month) key |
| MonthlyRewards.SummariesInFirstSeenOrder | src/utils/summarizeMonthlyRewards.js:25-51 | of two summaries, the earlier one is seeded by an earlier kept transaction than the later one: the output follows the order in which each (customer, month) was first seen |
| MonthlyRewards.SummariesConservePoints | src/utils/summarizeMonthlyRewards.js:36-48 | the summaries' points add up to the points of the kept transactions |
| MonthlyRewards.MonthKeyExamples | src/utils/summarizeMonthlyRewards.js:7 | June, July and August 2025 render as "2025-06", "2025-07" and "2025-08" |
| MonthlyRewards.SixTransactionsKept | src/utils/summarizeMonthlyRewards.test.js:4-84 | with reference 15 August 2025 the May and December 2024 purchases are dropped |
| MonthlyRewards.SixTransactionsKeys | src/utils/summarizeMonthlyRewards.test.js:4-84 | the kept purchases fall under Alice June, Alice July and Bob August, in that order |
| MonthlyRewards.SixTransactionsSums | src/utils/summarizeMonthlyRewards.test.js:4-84 | those keys earn 100, 250 and 52 points |
| MonthlyRewards.SummarizeExample | src/utils/summarizeMonthlyRewards.test.js:4-84 | the test's result is exactly Alice 2025-06 100, Alice 2025-07 250, Bob 2025-08 52 |
| MonthlyRewards.SummarizeOldOnlyExample | src/utils/summarizeMonthlyRewards.test.js:86-109 | purchases all older than the window give an empty result |
| Grouping.DistinctKeysSpec | src/utils/summarizeMonthlyRewards.js:38-51 | the Map's keys: every key of the input, only keys of the input, each once |
| Grouping.DistinctKeysSnoc | src/utils/summarizeMonthlyRewards.js:38-45 | loop-step unfolding of the insertion order: one more element appends its key only when that key is new |
| Grouping.FirstIndex | src/utils/summarizeMonthlyRewards.js:38-45 | the position of the first element carrying a key, which is the one that creates its Map entry |
| Grouping.FirstIndexSnoc | src/utils/summarizeMonthlyRewards.js:38-45 | loop-step unfolding of the first position: an old key keeps it, a new key gets the position of the new element |
| Grouping.SumOfSnoc | src/utils/summarizeMonthlyRewards.js:47-48 | loop-step unfolding of the per-key sum: one more element adds its value to its own key's sum and to no other |
| Grouping.SumOfAbsent | src/utils/summarizeMonthlyRewards.js:38-48 | a key that no element carries sums to 0 |
| Grouping.DistinctKeysFirstSeenOrder | src/utils/summarizeMonthlyRewards.js:51 | of two listed keys, the earlier one was seen first in the input |
| Grouping.GroupTotalConserves | src/utils/summarizeMonthlyRewards.js:36-48 | the per-key sums over all distinct keys add up to the sum over the whole input |
| Grouping.TotalOfGroups | src/components/RewardsDashboard.jsx:64 | records holding one group sum per listed key add up to the sum over those keys |
| Dashboard.RegisteringPreservesNames | src/components/RewardsDashboard.jsx:12-16 | registering one more transaction keeps the map exactly the first-seen names of the customers so far |
| Dashboard.RegisteredFirstNames | src/components/RewardsDashboard.jsx:11-16 | after any prefix, the insertion order holds the prefix's distinct customer ids and the map holds their first-seen names |
| Dashboard.Customers | src/components/RewardsDashboard.jsx:10-21 | the loop returns exactly `CustomerList(transactions)` |
| Dashboard.CustomersDistinct | src/components/RewardsDashboard.jsx:10-21 | no customer is listed twice |
| Dashboard.CustomersListedIff | src/components/RewardsDashboard.jsx:12-16 | a customer id is listed iff some transaction carries it |
| Dashboard.CustomerNameFirstSeen | src/components/RewardsDashboard.jsx:13-15 | a listed customer's name is that of the first transaction with the id |
| Dashboard.CustomersInFirstSeenOrder | src/components/RewardsDashboard.jsx:17-20 | customers come out in the order in which their ids first appear |
| Dashboard.LaterTotal | src/components/RewardsDashboard.jsx:30 | of two different dates exactly one is later, and a date is never later than itself |
| Dashboard.LatestIsMaximum | src/components/RewardsDashboard.jsx:29-31 | the reduce returns the start or some transaction's date, and no transaction's date and not the start is later |
| Dashboard.ReferenceDate | src/components/RewardsDashboard.jsx:24-34 | there is no reference date exactly when there are no transactions |
| Dashboard.ReferenceDateIsLatest | src/components/RewardsDashboard.jsx:24-34 | the reference date is a transaction's date and no transaction is later |
| Dashboard.ReferenceDateUnique | src/components/RewardsDashboard.jsx:29-31 | any transaction date that no transaction beats is the reference date |
| Dashboard.NoTransactionAfterReference | src/components/RewardsDashboard.jsx:37-44 | no transaction lies in a month after the reference month |
| Dashboard.MonthlySummariesEmptyIff | src/components/RewardsDashboard.jsx:37-44 | the monthly summaries are empty iff there are no transactions |
| Dashboard.TallyPreservesTotals | src/components/RewardsDashboard.jsx:50-62 | tallying one more summary keeps the map exactly the per-customer totals of the summaries so far |
| Dashboard.TalliedTotals | src/components/RewardsDashboard.jsx:48-62 | after any prefix, the insertion order holds the prefix's distinct customers and the map holds their totals |
| Dashboard.CustomerTotals | src/components/RewardsDashboard.jsx:47-65 | the loop returns exactly `TotalsOf(monthlySummaries)` |
| Dashboard.TotalsOnePerCustomer | src/components/RewardsDashboard.jsx:50-58 | the i-th total belongs to the i-th distinct customer, and no other total has that customer |
| Dashboard.TotalsListedIff | src/components/RewardsDashboard.jsx:50-62 | a customer has a total iff it has a monthly summary |
| Dashboard.TotalFromSummaries | src/components/RewardsDashboard.jsx:51-61 | a total's name is the customer's first summary's, and its points are the sum of all the customer's summaries |
| Dashboard.TotalsInFirstSeenOrder | src/components/RewardsDashboard.jsx:64 | totals come out in the order in which their customer first appears |
| Dashboard.TotalsConservePoints | src/components/RewardsDashboard.jsx:50-61 | the totals add up to the summaries' points |
| Dashboard.DashboardTotalsConservePoints | src/components/RewardsDashboard.jsx:37-65 | the dashboard's totals add up to the points of the transactions in the window of the latest month |
| Dashboard.ThreeTransactionsReference | src/components/RewardsDashboard.test.jsx:13-37 | the test's reference date is 1 August 2025 |
| Dashboard.ThreeTransactionsKept | src/components/RewardsDashboard.test.jsx:13-37 | all three purchases are in the window |
| Dashboard.ThreeTransactionsKeys | src/components/RewardsDashboard.test.jsx:13-37 | each purchase has a (customer, month) key of its own |
| Dashboard.ThreeTransactionsSums | src/components/RewardsDashboard.test.jsx:13-37 | the purchases earn 90, 10 and 110 points |
| Dashboard.ThreeTransactionsSummaryOf | src/components/RewardsDashboard.test.jsx:54-65 | each key's summary is the test's monthly row |
| Dashboard.ThreeTransactionsMonthly | src/components/RewardsDashboard.test.jsx:54-65 | the monthly rows are Alice 2025-06 90, Alice 2025-07 10, Bob 2025-08 110 |
| Dashboard.ThreeSummariesTotals | src/components/RewardsDashboard.test.jsx:72-77 | those rows list Alice then Bob, with 100 and 110 points |
| Dashboard.ThreeSummariesTotalsOf | src/components/RewardsDashboard.test.jsx:72-77 | those rows give the totals Alice 100 and Bob 110 |
| Dashboard.ThreeTransactionsTotals | src/components/RewardsDashboard.test.jsx:13-77 | end to end, the dashboard shows Alice with 100 points and Bob with 110 |
| Dashboard.ThreeTransactionsCustomers | src/components/RewardsDashboard.test.jsx:13-37 | the customer list of the test is Alice, then Bob |

## Left out

- Rendering and React state are left out because they are UI with no computable result. This covers the JSX of `RewardsDashboard`, the tables, the customer selector, `useState` and `handleCustomerChange`.
- `useRewardsData`, with its asynchronous effect, cancellation flag and loading and error state, is not part of this model.
- `src/data/api.js`, whose fetching is simulated with `setTimeout` and Promises, is not part of this model.
- The fixture data in `src/data/mockTransactions.js` is not part of this model. The tests' own data is used instead.
- JavaScript `Date` is left out: string parsing, time zones, and the mix of UTC parsing with local `getFullYear`/`getMonth`. A date is the calendar date (year, month, day) its ISO string names.
- Days are not checked against month lengths. A `Day` is any number from 1 to 31.
- `Number` is modelled as an exact `real`, so IEEE-754 rounding, NaN and Infinity are left out. `Math.floor` is `.Floor`, and points are unbounded integers.
- The default `referenceDate = new Date()` of `summarizeMonthlyRewards` is left out because it reads the clock. The reference date is always a parameter.
- The `referenceDate || new Date()` fallback in the `monthlySummaries` memo is left out. It cannot be reached: `ReferenceDate` is present whenever there are transactions, and the memo returns `[]` before reaching it otherwise.
- MonthlyRewards.SummarizeMonthlyRewards files transactions under the pair (customer id, calendar month) rather than under the string `${customerId}-${monthKey}`. `SameGroupIff` proves that the two groupings coincide.
- Dashboard.Later compares (year, month, day) rather than the ISO date strings that the source compares with `>`. The two orders agree for four-digit years. The string comparison itself is not modelled.
- The transaction `id` field is carried but never read, as in the source.
- `customerId` is modelled as an unbounded integer. In the source it is a JavaScript `Number`, which holds integers exactly only up to 2^53 and prints in exponent form from 10^21 on. Neither limit is modelled, and neither changes which transactions `SameGroupIff` groups together for ids in the exact range.
- Text.IntToString models `String()` only for integers below 10^21 in magnitude. Years and customer ids above that bound would print in exponent form in the source, and that form is not modelled.
- Updates in place are modelled as map updates, so aliasing is not captured. In the source, `summary.points += …` and `existing.totalPoints += …` mutate the objects stored in the Map. `FiledInPlace` states that the two writes amount to one filing step.
