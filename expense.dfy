/**
 * The records the expense tracker stores and the JSON text they are stored as.
 */
module ExpenseModel {

  datatype Option<+T> = None | Some(value: T)

  /** How a write to the browser's storage ends: it succeeds, or it throws (quota exceeded). */
  datatype Outcome = Pass | Fail(error: string)

  /**
   * One stored expense. `date` is the instant its date string denotes and
   * `createdAt` the instant it was recorded; `amount` is an exact decimal.
   */
  datatype Expense = Expense(
    id: string,
    amount: real,
    category: string,
    description: string,
    date: int,
    createdAt: int)

  /** What the caller of `addExpense` supplies: an expense without `id` and `createdAt`. */
  datatype ExpenseInput = ExpenseInput(
    amount: real,
    category: string,
    description: string,
    date: int)

  /** The record `addExpense` builds: the caller's fields plus the assigned `id` and `createdAt`. */
  function NewExpense(input: ExpenseInput, id: string, createdAt: int): (e: Expense)
    ensures e.id == id && e.createdAt == createdAt
    ensures e.amount == input.amount && e.category == input.category
    ensures e.description == input.description && e.date == input.date
  {
    Expense(id, input.amount, input.category, input.description, input.date, createdAt)
  }

  /**
   * `JSON.parse` followed by the cast to an expense array, and `JSON.stringify`.
   * `parse` is partial: it yields None for text that is not an expense array.
   */
  datatype Codec = Codec(
    parse: string -> Option<seq<Expense>>,
    stringify: seq<Expense> -> string)
  {
    /**
     * What the storage code relies on for the array `xs` it writes: reading
     * the text back yields the same records, and the text is not the empty
     * string (which `getExpenses` would read as "no data"). This is asked
     * of the arrays actually written, not of every array.
     */
    predicate ReadsBack(xs: seq<Expense>) {
      parse(stringify(xs)) == Some(xs) && stringify(xs) != ""
    }
  }

  /** Every array can be read back by some codec, so `ReadsBack` is no vacuous premise. */
  lemma ReadsBackSatisfiable(xs: seq<Expense>)
    ensures Codec(text => Some(xs), ys => "[]").ReadsBack(xs)
  {
  }
}
