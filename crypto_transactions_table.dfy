/** The dedicated crypto transaction table. It renders the same columns as the generic table
    in its crypto setting, but reads the transaction id only from `transacction_id`. */
module CryptoTransactionsTable {
  import opened Strings
  import opened Types
  import opened Display
  import TransactionsTable

  const Endpoint: string := "/crypto-transactions"
  const Title: string := "Crypto Transaction History"
  const LoadingText: string := "Loading crypto transactions..."
  const EmptyText: string := "No crypto transactions found"

  const Headers: seq<string> :=
    ["ID", "Email", "Product", "Amount", "Status", "Transaction ID", "NEAR Tx Hash", "Date"]

  /** The dedicated table uses the settings the generic table has for crypto. */
  lemma SameSettingsAsGenericCrypto()
    ensures TransactionsTable.ConfigFor(TransactionsTable.Crypto) ==
      TransactionsTable.Config(Endpoint, Title, LoadingText, EmptyText)
    ensures TransactionsTable.Headers(TransactionsTable.Crypto) == Headers
  {
  }

  /** The transaction id cell: the first eight characters of a non-empty `transacction_id`
      and an ellipsis, else "N/A". */
  function TxIdText(id: Field): (text: string)
    ensures !Truthy(id) ==> text == NotAvailable
    ensures Truthy(id) ==>
      |text| == (if |id.s| < 8 then |id.s| else 8) + 3
      && text[..|text| - 3] <= id.s && text[|text| - 3..] == "..."
  {
    if Truthy(id) then Abbreviate(id.s) else NotAvailable
  }

  /** One `<tr>` of the table body. */
  function RenderRow(tx: TxRecord): (row: TransactionsTable.RowView)
    ensures row.id == tx.id && row.email == tx.email && row.status == tx.status
    ensures row.date == tx.createdAt
    ensures row.product == ProductText(tx.productName)
    ensures row.amount == FormatCurrency(tx.amountCents)
    ensures row.statusColor == StatusColor(tx.status)
    ensures row.txId == TxIdText(tx.transacctionId)
    ensures row.near == Some(NearCell(tx.nearHash))
  {
    TransactionsTable.RowView(
      tx.id,
      tx.email,
      ProductText(tx.productName),
      FormatCurrency(tx.amountCents),
      tx.status,
      StatusColor(tx.status),
      TxIdText(tx.transacctionId),
      Some(NearCell(tx.nearHash)),
      tx.createdAt)
  }

  /** The component's render: the loading message first, then the empty message, then the
      table with one row per record in the order received. */
  function Render(loading: bool, txs: seq<TxRecord>): (view: TransactionsTable.TableView)
    ensures view.LoadingView? <==> loading
    ensures view.EmptyView? <==> !loading && txs == []
    ensures view.LoadingView? ==> view.message == LoadingText
    ensures view.EmptyView? ==> view.message == EmptyText
    ensures view.Table? ==>
      view.title == Title && view.headers == Headers && |view.rows| == |txs|
      && forall i :: 0 <= i < |txs| ==> view.rows[i] == RenderRow(txs[i])
  {
    if loading then TransactionsTable.LoadingView(LoadingText)
    else if |txs| == 0 then TransactionsTable.EmptyView(EmptyText)
    else TransactionsTable.Table(Title, Headers, seq(|txs|, i requires 0 <= i < |txs| => RenderRow(txs[i])))
  }

  /** A row renders the same in both tables exactly when the generic table's key lookup
      cannot matter: the record has the `transacction_id` key, or it lacks it and its
      `transaction_id` is missing or empty. */
  lemma RowAgreesWithGenericTable(tx: TxRecord)
    ensures RenderRow(tx) == TransactionsTable.RenderRow(TransactionsTable.Crypto, tx) <==>
      tx.transacctionId != Absent || !Truthy(tx.transactionId)
  {
  }

  /** For records that carry `transacction_id`, as the backend's crypto records do, the
      dedicated table and the generic table in its crypto setting render the same. */
  lemma AgreesWithGenericTable(loading: bool, txs: seq<TxRecord>)
    requires forall i :: 0 <= i < |txs| ==> txs[i].transacctionId != Absent
    ensures Render(loading, txs) == TransactionsTable.Render(TransactionsTable.Crypto, loading, txs)
  {
  }

  /** A record without the `transacction_id` key but with a card-style `transaction_id`
      shows its abbreviated id in the generic table and "N/A" in the dedicated one. */
  lemma DivergesWithoutCryptoKey()
    ensures var tx := TxRecord(1, "a@b.c", "completed", Some(500), Str("Plan"),
                               Str("0123456789"), Absent, Null, "2024-01-01");
      TransactionsTable.RenderRow(TransactionsTable.Crypto, tx).txId == "01234567..."
      && RenderRow(tx).txId == NotAvailable
  {
    var id := Str("0123456789");
    assert "0123456789"[..8] == "01234567";
    assert TransactionsTable.TxIdText(TransactionsTable.Crypto, id) == "01234567...";
  }
}
