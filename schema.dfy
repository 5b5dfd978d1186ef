/** The one table of the application, as convex/schema.ts declares it. */
module Schema {

  datatype Option<T> = None | Some(value: T)

  /** Document ids are opaque to the application; the store hands out a fresh
      one on every insert. */
  type ExpenseId = nat

  /** One row of the `expenses` table.  `amountInPaise` is the amount in the
      currency's smallest unit; `date` is a `YYYY-MM-DD` string.  The schema
      declares `createdAt` as a number, but the create mutation never writes
      it, so a stored record may lack it: `None`. */
  datatype Expense = Expense(
    id: ExpenseId,
    amountInPaise: int,
    category: string,
    description: string,
    date: string,
    idempotencyKey: string,
    createdAt: Option<int>
  )
}
