/** Display rules shared, word for word, by the two transaction tables: the colour of the
    status badge, the amount cell, the product cell and the NEAR explorer cell. */
module Display {
  import opened Strings
  import opened Types

  const NotAvailable: string := "N/A"

  const Green: string := "text-green-400"
  const Yellow: string := "text-yellow-400"
  const Red: string := "text-red-400"
  const Gray: string := "text-gray-400"

  /** Where a NEAR transaction hash is looked up. */
  const NearExplorer: string := "https://nearblocks.io/es/txns/"

  /** What a table cell shows. `Usd(cents)` stands for the `Intl.NumberFormat` rendering of
      `cents / 100` as US dollars, which is not modelled further; `RecordId(n)` is `#` followed
      by the record number; `Badge` is a status text with its colour class. */
  datatype Cell =
    | Text(text: string)
    | Link(href: string, caption: string)
    | Usd(cents: int)
    | RecordId(n: int)
    | Badge(status: string, color: string)

  /** The three status words the badge recognises are lower-case. */
  lemma StatusWordsLowerCase()
    ensures IsLowerCase("completed") && IsLowerCase("pending") && IsLowerCase("failed")
  {
  }

  /** `getStatusColor`: green, yellow or red for a status spelling completed, pending or
      failed in any letter case, gray for everything else. */
  function StatusColor(status: string): (color: string)
    ensures color == Green <==> MatchesIgnoringCase(status, "completed")
    ensures color == Yellow <==> MatchesIgnoringCase(status, "pending")
    ensures color == Red <==> MatchesIgnoringCase(status, "failed")
    ensures color == Gray <==>
      !MatchesIgnoringCase(status, "completed") && !MatchesIgnoringCase(status, "pending")
      && !MatchesIgnoringCase(status, "failed")
  {
    StatusWordsLowerCase();
    LowerEqualsIff(status, "completed");
    LowerEqualsIff(status, "pending");
    LowerEqualsIff(status, "failed");
    var lower := ToLower(status);
    if lower == "completed" then Green
    else if lower == "pending" then Yellow
    else if lower == "failed" then Red
    else Gray
  }

  /** `formatCurrency`: a null amount is shown as "N/A", any number as a dollar amount. */
  function FormatCurrency(cents: Option<int>): (cell: Cell)
    ensures cell == Text(NotAvailable) <==> cents.None?
    ensures cents.Some? ==> cell.Usd? && cell.cents == cents.value
  {
    match cents
    case None => Text(NotAvailable)
    case Some(c) => Usd(c)
  }

  /** `product_name || "N/A"`: the product cell is never blank, and shows the name whenever
      there is a non-empty one. */
  function ProductText(name: Field): (text: string)
    ensures text != ""
    ensures text == NotAvailable || (name.Str? && text == name.s)
    ensures Truthy(name) ==> text == name.s
  {
    if Truthy(name) then name.s else NotAvailable
  }

  /** The NEAR hash cell: a link to the explorer page of a non-empty hash, labelled with the
      hash's first eight characters and an ellipsis, else "N/A". */
  function NearCell(hash: Field): (cell: Cell)
    ensures cell.Link? <==> Truthy(hash)
    ensures !Truthy(hash) ==> cell == Text(NotAvailable)
    ensures cell.Link? ==>
      cell.href == NearExplorer + hash.s
      && |cell.caption| == (if |hash.s| < 8 then |hash.s| else 8) + 3
      && cell.caption[..|cell.caption| - 3] <= hash.s && cell.caption[|cell.caption| - 3..] == "..."
  {
    if Truthy(hash) then Link(NearExplorer + hash.s, Abbreviate(hash.s)) else Text(NotAvailable)
  }

  /** The link's target determines the hash, and its caption is a prefix of the hash: the
      caption abbreviates exactly the transaction the link leads to. */
  lemma NearLinkTargetsFullHash(hash: Field)
    requires Truthy(hash)
    ensures NearCell(hash).href[..|NearExplorer|] == NearExplorer
    ensures NearCell(hash).href[|NearExplorer|..] == hash.s
    ensures var caption := NearCell(hash).caption;
      caption[..|caption| - 3] <= NearCell(hash).href[|NearExplorer|..]
  {
  }

  /** Two different non-empty hashes never produce the same link. */
  lemma NearLinksDistinguishHashes(h1: Field, h2: Field)
    requires Truthy(h1) && Truthy(h2) && h1 != h2
    ensures NearCell(h1) != NearCell(h2)
  {
    NearLinkTargetsFullHash(h1);
    NearLinkTargetsFullHash(h2);
  }
}
