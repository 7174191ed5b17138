# Storefront payment confirmation and transaction tables, in Dafny

This project models two parts of a React storefront that sells products by card (Stripe) and by crypto (NEAR).

- **The payment confirmation page** (`PaymentSuccess`). After a checkout redirect it polls the backend's status endpoint for the session. It makes at most 4 attempts and waits 3000 ms after a `pending` reply, except after the last attempt. It stops at `completed` or `failed`, and any thrown error turns the page to `failed`. Every status value is stored as it is received; the page then renders a view only for `loading`, `completed`, `pending` and `failed`, and nothing for any other value.
  - `StatusPoller` is a class whose `status` field is the component's state.
  - `CheckStatus` is the loop itself. It is proved against the specification function `Attempts`/`Poll`, which gives the exact sequence of queries, `setStatus` calls and timer waits of a run.
  - The network is an oracle: `replies[k]` is what the `k`-th status request returns, either a decoded body or a thrown error.
  - `PollingProperties` proves what the loop guarantees about that log.
- **The transaction history tables** (`TransactionsTable`, which has a card setting and a crypto setting, and `CryptoTransactionsTable`). Their display rules are pure functions:
  - the status badge colour;
  - the "N/A" placeholders;
  - which key the transaction id is read from;
  - the abbreviation of ids and hashes;
  - the NEAR explorer link;
  - the precedence of the loading view over the empty view.

  The rules the two tables share word for word are in `Display`. `CryptoTransactionsTable` proves exactly when the dedicated crypto table renders the same as the generic table in its crypto setting.

Modules, one per file: `Strings`, `Types`, `Display`, `PaymentSuccess`, `PollingProperties`, `TransactionsTable`, `CryptoTransactionsTable`.

Two behaviours of the code that one might expect to be otherwise, modelled as the code has them:
- **A body without a `status` property is not a failure.** One might expect it to end the run as failed. The code stores `undefined`, so the page shows none of its four views (`PollingProperties.MissingStatusBlanksPage`). Before the last attempt the next query follows at once; on the last attempt the run ends with `undefined` stored. A body that cannot be parsed does throw, and ends in failed.
- **No cancellation.** Nothing discards a superseded run's late results, so a run that outlives the page's interest can still call `setStatus`. The model has no cancellation guard either.

## Model

| member | source | states |
|---|---|---|
| PaymentSuccess.StatusPoller.constructor | src/components/PaymentSuccess.tsx:34 | the page starts at `loading` with nothing queried |
| PaymentSuccess.StatusPoller.CheckStatus | src/components/PaymentSuccess.tsx:37-58 | the loop's effects are exactly the specified run `Poll(replies)`, and the status it leaves is the last value that run passes to `setStatus` (failed after a thrown error) |
| PaymentSuccess.Attempts | src/components/PaymentSuccess.tsx:42-53 | the reference run of the loop from an attempt: while attempts remain it has at least a query and its status update, and at most three events per remaining attempt, less one because the last attempt never waits |
| PaymentSuccess.Poll | src/components/PaymentSuccess.tsx:37-58 | a whole run opens with query 0 and the update for its reply, and has between two and eleven events |
| PaymentSuccess.Displayed | src/components/PaymentSuccess.tsx:44-56 | the status state after a log is the last value passed to `setStatus`; it differs from the starting state only if that value was emitted in the log |
| PaymentSuccess.AttemptsUnfold | src/components/PaymentSuccess.tsx:42-53 | a run from an attempt is that attempt's query, status update and optional wait, followed by the rest of the run only when the reply is neither terminal nor an error |
| PaymentSuccess.AttemptExtendsPrefix | src/components/PaymentSuccess.tsx:42-53 | handling one reply extends a prefix of the run by that attempt's events: to the whole run when the reply stops the loop, otherwise to the prefix before the next attempt |
| PaymentSuccess.DisplayedAfterBlock | src/components/PaymentSuccess.tsx:44-56 | after an attempt the page shows the reply's status, or failed for an error |
| PaymentSuccess.KnownStatusesDistinct | src/components/PaymentSuccess.tsx:64-84 | the four status words the page compares against are pairwise distinct |
| PaymentSuccess.StatusViews | src/components/PaymentSuccess.tsx:64-90 | at most one view is rendered; each view appears exactly when the status is its word, and no view at all for any other value |
| PollingProperties.DisplayedConcat | src/components/PaymentSuccess.tsx:44 | the status after two logs is the status after the second, started from the status after the first |
| PollingProperties.QueryAttemptsConcat | src/components/PaymentSuccess.tsx:43 | the queries of a concatenated log are those of the first part followed by those of the second |
| PollingProperties.WaitCountConcat | src/components/PaymentSuccess.tsx:51 | waits add up over concatenated logs |
| PollingProperties.NoEmitKeepsStatus | src/components/PaymentSuccess.tsx:44 | a log with no `setStatus` call leaves the status unchanged |
| PollingProperties.BlockMeasures | src/components/PaymentSuccess.tsx:43-52 | one attempt issues exactly one query with its own number, waits once only after `pending` on a non-final attempt, and leaves the reply's status on the page |
| PollingProperties.StoppedRun | src/components/PaymentSuccess.tsx:42-48 | a terminal or error reply, or the last attempt, ends the run with no wait after it |
| PollingProperties.ContinuedRun | src/components/PaymentSuccess.tsx:42-53 | a non-terminal reply on a non-final attempt is followed by the rest of the run |
| PollingProperties.QueriesNumbered | src/components/PaymentSuccess.tsx:42-43 | the queries are numbered consecutively from the starting attempt; there is at least one and never more than the attempts left |
| PollingProperties.LastAttempt | src/components/PaymentSuccess.tsx:42-48 | the attempt that ends a run lies within the bound, every earlier reply let the loop go on, and it stops the loop unless it is the last attempt |
| PollingProperties.QueryCount | src/components/PaymentSuccess.tsx:42-48 | a run makes one query per attempt up to and including the one whose reply ends it |
| PollingProperties.FinalStatusIsLastReply | src/components/PaymentSuccess.tsx:44-57 | the status a run leaves is what its last reply leads to: that reply's value, or failed for an error |
| PollingProperties.WaitsFewerThanQueries | src/components/PaymentSuccess.tsx:50-52 | a run waits strictly fewer times than it queries |
| PollingProperties.RunOpens | src/components/PaymentSuccess.tsx:43-44 | a run opens with the first query followed by the status update for its reply |
| PollingProperties.TerminalStatusEndsRun | src/components/PaymentSuccess.tsx:46-48 | a `completed` or `failed` status update can only be the last event of a run |
| PollingProperties.EveryQueryAnswered | src/components/PaymentSuccess.tsx:43-57 | every query is immediately followed by the status update for its reply, and the query of the last attempt ends the run after that update |
| PollingProperties.WaitOnlyAfterPending | src/components/PaymentSuccess.tsx:50-52 | every wait is of 3000 ms, comes right after a `pending` update on a non-final attempt, and is followed by the next attempt's query |
| PollingProperties.NextAfterNonTerminal | src/components/PaymentSuccess.tsx:42-53 | after a non-terminal update the next attempt's query follows, with a wait in between exactly when the status was `pending` |
| PollingProperties.RunIsBounded | src/components/PaymentSuccess.tsx:38-42 | a run issues between one and four queries, numbered from 0, and at most three waits |
| PollingProperties.LoadingUntilFirstReply | src/components/PaymentSuccess.tsx:34-44 | until the first reply is handled only the first query has happened, and the page shows `loading` |
| PollingProperties.ErrorEndsRun | src/components/PaymentSuccess.tsx:41-57 | an error on attempt k after non-final replies ends the run with k+1 queries, a final `failed` update, and failed displayed |
| PollingProperties.TerminalReplyEndsRun | src/components/PaymentSuccess.tsx:44-48 | a completed or failed reply on attempt k after non-final replies ends the run with k+1 queries, showing that value |
| PollingProperties.FinalReplyEndsRun | src/components/PaymentSuccess.tsx:42-57 | a reply that stops the loop after non-final replies is the last one asked for, and its status is the last update |
| PollingProperties.LastEventIsEmit | src/components/PaymentSuccess.tsx:42-57 | every run ends with a status update for the reply that ended it, never with a wait |
| PollingProperties.FourPendingReplies | src/components/PaymentSuccess.tsx:38-53 | four pending replies give exactly four queries, three waits, and `pending` left on the page, not failed |
| PollingProperties.CompletedAtOnce | src/components/PaymentSuccess.tsx:42-48 | an immediate `completed` gives one query and the success view's status |
| PollingProperties.CompletedAfterTwoPending | src/components/PaymentSuccess.tsx:42-53 | pending, pending, completed gives three queries with a wait after each pending reply |
| PollingProperties.ErrorOnSecondAttempt | src/components/PaymentSuccess.tsx:41-57 | pending then an error gives two queries and ends in failed |
| PollingProperties.UnrecognisedStatusRetriesAtOnce | src/components/PaymentSuccess.tsx:44-53 | an unrecognised status is stored as it came and the next query follows with no wait |
| PollingProperties.MissingStatusBlanksPage | src/components/PaymentSuccess.tsx:44-90 | a body without a status stores `undefined`, the page renders none of its views, and the next query follows at once |
| Strings.ToLower | src/components/TransactionsTable.tsx:30 | lower-casing keeps the length and folds each character |
| Strings.LowerEqualsIff | src/components/TransactionsTable.tsx:30-36 | comparing the lower-cased status with a lower-case word is exactly a case-insensitive comparison, in both directions |
| Strings.Take | src/components/TransactionsTable.tsx:143 | `substring(0, n)` is a prefix of length min(n, length) |
| Strings.Abbreviate | src/components/TransactionsTable.tsx:143 | the abbreviation is a prefix of at most eight characters followed by "..." |
| Types.Truthy | src/components/TransactionsTable.tsx:133-147 | JavaScript truthiness of a nullable string property: absent, null and the empty string are falsy, and only a non-empty string is truthy |
| Display.StatusColor | src/components/TransactionsTable.tsx:29-40 | green, yellow or red exactly when the status spells completed, pending or failed in any letter case; gray exactly for every other string (the crypto table repeats this rule at CryptoTransactionsTable.tsx lines 23-34) |
| Display.FormatCurrency | src/components/TransactionsTable.tsx:11-17 | "N/A" exactly for a null amount; a number becomes a dollar amount of those cents (repeated in the crypto table at lines 5-11) |
| Display.ProductText | src/components/TransactionsTable.tsx:133 | the product cell is never blank: the name when it is a non-empty string, otherwise "N/A" (repeated in the crypto table at line 124) |
| Display.NearCell | src/components/TransactionsTable.tsx:145-159 | a link exactly for a non-empty hash, pointing at the explorer page of the full hash and captioned with its abbreviation; "N/A" otherwise (repeated in the crypto table at lines 143-156) |
| Display.NearLinkTargetsFullHash | src/components/TransactionsTable.tsx:149-154 | the link's target is the explorer prefix followed by the whole hash, and its caption abbreviates that same hash |
| Display.NearLinksDistinguishHashes | src/components/TransactionsTable.tsx:149 | different non-empty hashes never produce the same link |
| TransactionsTable.ConfigFor | src/components/TransactionsTable.tsx:42-55 | card reads `/transactions` and crypto `/crypto-transactions`, each with its title, loading text and empty text |
| TransactionsTable.ConfigsDistinct | src/components/TransactionsTable.tsx:42-55 | the two types share no endpoint, title, loading text or empty text |
| TransactionsTable.Headers | src/components/TransactionsTable.tsx:107-119 | the NEAR header is present exactly in the crypto table, between the transaction id and the date |
| TransactionsTable.TxIdField | src/components/TransactionsTable.tsx:123 | the id is read from `transacction_id` whenever that key is present, even if null, and from `transaction_id` otherwise |
| TransactionsTable.NearHashField | src/components/TransactionsTable.tsx:124 | a missing hash key reads as null, and a present one, null or empty included, is kept as it is |
| TransactionsTable.TxIdText | src/components/TransactionsTable.tsx:143 | "N/A" for a missing or empty id, the whole id for card, and the eight-character abbreviation for crypto |
| TransactionsTable.RenderRow | src/components/TransactionsTable.tsx:122-164 | each cell follows its rule; a NEAR cell is present exactly in the crypto table |
| TransactionsTable.Render | src/components/TransactionsTable.tsx:85-164 | loading is shown exactly when loading, whatever the list; the empty text exactly when not loading and the list is empty; otherwise the title, headers and one row per record in order |
| TransactionsTable.RowFitsHeaders | src/components/TransactionsTable.tsx:107-160 | every row has one cell per header, and the NEAR cell sits under the NEAR header |
| TransactionsTable.CryptoKeyShadowsCardKey | src/components/TransactionsTable.tsx:123-143 | a present but null or empty `transacction_id` shows "N/A" even when `transaction_id` is set |
| TransactionsTable.TxIdShownByType | src/components/TransactionsTable.tsx:143 | card shows a stored id in full; crypto shows at most eleven characters that start with the id's prefix |
| TransactionsTable.LoadingIgnoresRecords | src/components/TransactionsTable.tsx:85-91 | while loading the records make no difference to what is shown |
| TransactionsTable.RowsConcat | src/components/TransactionsTable.tsx:122-164 | the rows of two concatenated lists are the rows of each, in order |
| CryptoTransactionsTable.SameSettingsAsGenericCrypto | src/components/CryptoTransactionsTable.tsx:46-111 | the dedicated table's endpoint, texts and headers are those of the generic table's crypto setting |
| CryptoTransactionsTable.TxIdText | src/components/CryptoTransactionsTable.tsx:138-142 | a non-empty `transacction_id` shows its eight-character abbreviation, anything else "N/A" |
| CryptoTransactionsTable.RenderRow | src/components/CryptoTransactionsTable.tsx:114-161 | each cell follows its rule, and the NEAR cell is always present |
| CryptoTransactionsTable.Render | src/components/CryptoTransactionsTable.tsx:61-161 | loading is shown first, then the empty text, then the table with one row per record in order |
| CryptoTransactionsTable.RowAgreesWithGenericTable | src/components/CryptoTransactionsTable.tsx:138-142 | a row renders the same as in the generic crypto table exactly when it has the `transacction_id` key or has no non-empty `transaction_id` |
| CryptoTransactionsTable.AgreesWithGenericTable | src/components/CryptoTransactionsTable.tsx:61-161 | for records carrying `transacction_id`, the two tables render identically |
| CryptoTransactionsTable.DivergesWithoutCryptoKey | src/components/CryptoTransactionsTable.tsx:139-141 | a record with only `transaction_id` shows "01234567..." in the generic table and "N/A" in the dedicated one |

## Left out

- The HTTP requests, the bearer token read from `localStorage`, and JSON decoding are outside the model. `getPaymentStatus` is replaced by the oracle of replies, and the tables' data-fetch effects are left out. So are `ProductCard`, `ProductList`, `AuthProvider`, `Navbar`, `GoogleLogin` and `App`.
- `setTimeout` is recorded as a `Wait(3000)` event. Wall-clock time is not modelled.
- The effect re-running when `sessionId` changes, and overlapping runs, are not modelled: each `CheckStatus` call is one run, and runs are not interleaved. The code has no cancellation guard, so none is modelled.
- `console.error` in the catch handler is not modelled.
- PaymentSuccess.StatusPoller.CheckStatus requires at least four replies in the oracle. A run never asks for more than four, and fewer replies than a run may ask for are not meaningful input.
- Strings.ToLower folds only the ASCII letters A-Z. For comparisons with the lower-case ASCII words `completed`, `pending` and `failed` this agrees with JavaScript's `toLowerCase` except for the few non-ASCII characters that lower-case to ASCII, such as the Kelvin sign (U+212A), which JavaScript maps to `k`. None of the three words contains `k`, and the dotted capital I (U+0130) lower-cases to two characters, so it cannot produce these words either.
- Strings.Take counts Unicode scalar values, whereas JavaScript's `substring(0, n)` counts UTF-16 code units. For an id or hash with characters outside the Basic Multilingual Plane the source shows fewer characters, and it can split a surrogate pair. The model shows `n` whole characters. This affects Strings.Abbreviate and every cell built from it. The ids and hashes these tables show are ASCII, where the two agree.
- The non-null branch of `formatCurrency` (`Intl.NumberFormat` over the float `cents / 100`) is kept abstract as `Usd(cents)`. `formatDate` (`Date` and locale formatting) is not modelled, and the date cell carries `created_at` unchanged.
- A record whose `status` is not a string, or whose `amount_cents` is missing rather than null, is outside the model. The record types declare both as present.
- React rendering, the styling classes other than the badge colour, and the continue button's `onContinue` callback are not modelled.
