/** The generic transaction history table, shown either for card payments or for crypto
    payments. Everything but the data fetch is a function of the table type, the loading
    flag and the list of records. */
module TransactionsTable {
  import opened Strings
  import opened Types
  import opened Display

  datatype TransactionType = Card | Crypto

  /** The per-type settings: where the rows come from and the texts shown around them. */
  datatype Config = Config(endpoint: string, title: string, loadingText: string, emptyText: string)

  /** The `config` table. */
  function ConfigFor(t: TransactionType): (c: Config)
    ensures t == Card ==> c == Config("/transactions", "Transaction History",
                                      "Loading transactions...", "No transactions found")
    ensures t == Crypto ==> c == Config("/crypto-transactions", "Crypto Transaction History",
                                        "Loading crypto transactions...", "No crypto transactions found")
  {
    match t
    case Card => Config("/transactions", "Transaction History",
                        "Loading transactions...", "No transactions found")
    case Crypto => Config("/crypto-transactions", "Crypto Transaction History",
                          "Loading crypto transactions...", "No crypto transactions found")
  }

  /** Each table type has its own endpoint, title, loading text and empty text. */
  lemma ConfigsDistinct(t1: TransactionType, t2: TransactionType)
    requires t1 != t2
    ensures ConfigFor(t1).endpoint != ConfigFor(t2).endpoint
    ensures ConfigFor(t1).title != ConfigFor(t2).title
    ensures ConfigFor(t1).loadingText != ConfigFor(t2).loadingText
    ensures ConfigFor(t1).emptyText != ConfigFor(t2).emptyText
  {
  }

  const NearHeader: string := "NEAR Tx Hash"

  /** The column headers: the NEAR column sits between the transaction id and the date, and
      only in the crypto table. */
  function Headers(t: TransactionType): (headers: seq<string>)
    ensures NearHeader in headers <==> t == Crypto
    ensures |headers| == if t == Crypto then 8 else 7
    ensures headers[..6] == ["ID", "Email", "Product", "Amount", "Status", "Transaction ID"]
    ensures headers[|headers| - 1] == "Date"
  {
    var near := NearHeader;
    assert near != "ID" && near != "Email" && near != "Product" && near != "Amount";
    assert near != "Status" && near != "Transaction ID" && near != "Date";
    ["ID", "Email", "Product", "Amount", "Status", "Transaction ID"]
    + (if t == Crypto then [NearHeader] else [])
    + ["Date"]
  }

  /** One rendered row. `near` is the NEAR cell, present only in the crypto table; `date`
      carries `created_at` as received (its locale formatting is not modelled). */
  datatype RowView = RowView(
    id: int,
    email: string,
    product: string,
    amount: Cell,
    status: string,
    statusColor: string,
    txId: string,
    near: Option<Cell>,
    date: string)

  /** The cells of a row, left to right. */
  function Cells(row: RowView): seq<Cell>
  {
    [RecordId(row.id), Text(row.email), Text(row.product), row.amount,
     Badge(row.status, row.statusColor), Text(row.txId)]
    + (if row.near.Some? then [row.near.value] else [])
    + [Text(row.date)]
  }

  /** `'transacction_id' in tx ? tx.transacction_id : tx.transaction_id`: the crypto key
      wins whenever it is present, even when it is null or empty. */
  function TxIdField(tx: TxRecord): (f: Field)
    ensures tx.transacctionId != Absent ==> f == tx.transacctionId
    ensures tx.transacctionId == Absent ==> f == tx.transactionId
  {
    if tx.transacctionId != Absent then tx.transacctionId else tx.transactionId
  }

  /** `'near_transaction_hash' in tx ? tx.near_transaction_hash : null`. */
  function NearHashField(tx: TxRecord): (f: Field)
    ensures tx.nearHash == Absent ==> f == Null
    ensures tx.nearHash != Absent ==> f == tx.nearHash
    ensures f != Absent && (Truthy(f) <==> Truthy(tx.nearHash))
  {
    if tx.nearHash != Absent then tx.nearHash else Null
  }

  /** The transaction id cell: "N/A" for a missing or empty id, the whole id in the card
      table, its first eight characters and an ellipsis in the crypto table. */
  function TxIdText(t: TransactionType, id: Field): (text: string)
    ensures !Truthy(id) ==> text == NotAvailable
    ensures Truthy(id) && t == Card ==> text == id.s
    ensures Truthy(id) && t == Crypto ==>
      |text| == (if |id.s| < 8 then |id.s| else 8) + 3
      && text[..|text| - 3] <= id.s && text[|text| - 3..] == "..."
  {
    if Truthy(id) then (if t == Crypto then Abbreviate(id.s) else id.s) else NotAvailable
  }

  /** One `<tr>` of the table body. */
  function RenderRow(t: TransactionType, tx: TxRecord): (row: RowView)
    ensures row.id == tx.id && row.email == tx.email && row.status == tx.status
    ensures row.date == tx.createdAt
    ensures row.product == ProductText(tx.productName)
    ensures row.amount == FormatCurrency(tx.amountCents)
    ensures row.statusColor == StatusColor(tx.status)
    ensures row.txId == TxIdText(t, TxIdField(tx))
    ensures row.near.Some? <==> t == Crypto
    ensures t == Crypto ==> row.near.value == NearCell(tx.nearHash)
  {
    RowView(
      tx.id,
      tx.email,
      ProductText(tx.productName),
      FormatCurrency(tx.amountCents),
      tx.status,
      StatusColor(tx.status),
      TxIdText(t, TxIdField(tx)),
      if t == Crypto then Some(NearCell(NearHashField(tx))) else None,
      tx.createdAt)
  }

  /** What the component returns. */
  datatype TableView =
    | LoadingView(message: string)
    | EmptyView(message: string)
    | Table(title: string, headers: seq<string>, rows: seq<RowView>)

  /** The component's render: the loading message first, then the empty message, then the
      table with one row per record in the order received. */
  function Render(t: TransactionType, loading: bool, txs: seq<TxRecord>): (view: TableView)
    ensures view.LoadingView? <==> loading
    ensures view.EmptyView? <==> !loading && txs == []
    ensures view.LoadingView? ==> view.message == ConfigFor(t).loadingText
    ensures view.EmptyView? ==> view.message == ConfigFor(t).emptyText
    ensures view.Table? ==>
      view.title == ConfigFor(t).title && view.headers == Headers(t) && |view.rows| == |txs|
      && forall i :: 0 <= i < |txs| ==> view.rows[i] == RenderRow(t, txs[i])
  {
    if loading then LoadingView(ConfigFor(t).loadingText)
    else if |txs| == 0 then EmptyView(ConfigFor(t).emptyText)
    else Table(ConfigFor(t).title, Headers(t), seq(|txs|, i requires 0 <= i < |txs| => RenderRow(t, txs[i])))
  }

  /** Every row has one cell per header, and the NEAR cell sits under the NEAR header. */
  lemma RowFitsHeaders(t: TransactionType, tx: TxRecord)
    ensures |Cells(RenderRow(t, tx))| == |Headers(t)|
    ensures t == Crypto ==>
      Headers(t)[6] == NearHeader && Cells(RenderRow(t, tx))[6] == NearCell(tx.nearHash)
  {
  }

  /** When a record carries both keys, the crypto key decides the id cell even if it is null
      or empty, and the card key is then never shown. */
  lemma CryptoKeyShadowsCardKey(t: TransactionType, tx: TxRecord)
    requires tx.transacctionId != Absent && !Truthy(tx.transacctionId)
    ensures RenderRow(t, tx).txId == NotAvailable
  {
  }

  /** The card table shows a stored id in full; the crypto table shows at most eleven
      characters, which begin with the id's first characters. */
  lemma TxIdShownByType(tx: TxRecord)
    requires Truthy(TxIdField(tx))
    ensures RenderRow(Card, tx).txId == TxIdField(tx).s
    ensures var shown := RenderRow(Crypto, tx).txId;
      |shown| <= 11 && shown[..|shown| - 3] <= TxIdField(tx).s
  {
  }

  /** Loading hides the records entirely: whatever the list, a loading table shows the same. */
  lemma LoadingIgnoresRecords(t: TransactionType, txs1: seq<TxRecord>, txs2: seq<TxRecord>)
    ensures Render(t, true, txs1) == Render(t, true, txs2)
  {
  }

  /** Rendering commutes with splitting the list: the rows of `txs1 + txs2` are the rows of
      `txs1` followed by those of `txs2`. */
  lemma RowsConcat(t: TransactionType, txs1: seq<TxRecord>, txs2: seq<TxRecord>)
    requires txs1 != [] && txs2 != []
    ensures Render(t, false, txs1 + txs2).rows ==
      Render(t, false, txs1).rows + Render(t, false, txs2).rows
  {
  }
}
