/**
 The rows of a Mint transaction export and the transactions the ledger keeps
 of them. Amounts are whole cents, so a two-decimal `round` is the identity.
 */
module Records {

  datatype Option<T> = None | Some(value: T)

  /** One row of the export, with the nine columns the engine reads. */
  datatype RawRow = RawRow(
    date: string,
    description: string,
    originalDescription: string,
    amount: int,
    ttype: string,
    category: string,
    accountName: string,
    labels: string,
    notes: string)

  /** A row once the four unused columns are dropped. */
  datatype Transaction = Transaction(
    date: string,
    description: string,
    amount: int,
    ttype: string,
    category: string)

  /** Drops "Original Description", "Account Name", "Labels" and "Notes". */
  function DropColumns(r: RawRow): Transaction
  {
    Transaction(r.date, r.description, r.amount, r.ttype, r.category)
  }
}
