/**
 * The purchase records the rewards core consumes. A transaction's `date` is
 * an ISO "YYYY-MM-DD" string in the application; here it is the calendar date
 * that string names, with 1-based month and day.
 */
module Transactions {

  type Month = m: int | 1 <= m <= 12 witness 1

  type Day = d: int | 1 <= d <= 31 witness 1

  datatype Date = Date(year: int, month: Month, day: Day)

  /** `amount` is in dollars and may carry cents. */
  datatype Transaction = Transaction(
    id: string,
    customerId: int,
    customerName: string,
    date: Date,
    amount: real)

  function CustomerIdOf(t: Transaction): int {
    t.customerId
  }
}
