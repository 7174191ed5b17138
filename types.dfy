/** The shapes of the records the transaction tables receive from the backend
    (the `Transaction` and `CryptoTransaction` interfaces), as decoded JSON objects. */
module Types {

  datatype Option<T> = None | Some(value: T)

  /** One `string | null` property of a decoded JSON object. `Absent` is a missing key
      (reading it gives `undefined`), so `'key' in record` holds exactly when the field is not `Absent`. */
  datatype Field = Absent | Null | Str(s: string)

  /** JavaScript truthiness of such a property: only a non-empty string is truthy. */
  predicate Truthy(f: Field)
    ensures Truthy(f) ==> f.Str? && |f.s| >= 1
    ensures f == Absent || f == Null || f == Str("") ==> !Truthy(f)
  {
    f.Str? && f.s != ""
  }

  /** A row as either table receives it. A card `Transaction` carries `transaction_id` and no
      `transacction_id` or `near_transaction_hash` key; a `CryptoTransaction` carries
      `transacction_id` (spelled so by the backend) and `near_transaction_hash`. */
  datatype TxRecord = TxRecord(
    id: int,
    email: string,
    status: string,
    amountCents: Option<int>,
    productName: Field,
    transactionId: Field,
    transacctionId: Field,
    nearHash: Field,
    createdAt: string)
}
