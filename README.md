# InventoryAgro stock ledger, in Dafny

InventoryAgro is an inventory app for a farm store. Its logic lives in a
small browser-side database module, `src/db.js`. The module has two tables:

- products: name, unit, current stock, minimum stock, price and timestamps;
- transactions: IN and OUT movements of stock, each with a product-name
  snapshot, a price per unit and a total value.

Both tables use auto-increment ids. This project models:

- the ledger (`Db.Ledger`): a class that owns the two tables as maps from
  id to record, plus the two id counters. Its methods follow the module's
  operations: `addProduct`, `updateProduct`, `deleteProduct`,
  `addTransaction`, `getProducts`, `getTransactions`,
  `getRecentTransactions` and `getLowStockProducts`;
- the records and the pure rules the ledger applies (`Records`):
  - a new or edited product's fields;
  - whether a posting is accepted or refused;
  - the record it writes;
  - the stock change;
  - the query filter;
  - the orders the queries return;
- the page rules that sit on top of the ledger:
  - the period report, with totals, count, label, PDF name and the
    month or year window (`Reports`);
  - the product search and its low-stock mark (`ProductList`);
  - the stock valuation and the low-stock alert (`Dashboard`);
  - the stock-in and stock-out forms (`StockForm`, `StockIn`, `StockOut`):
    guards, payload, price prefill, submit handler and the stock-out
    button state;
- the JavaScript behaviour the code relies on (`Js`, `JsStrings`, `Seqs`,
  `Calendar`):
  - `Number(x) || 0`, `Number(undefined)` being NaN, `x || 0`;
  - `trim`, `toLowerCase`, `includes` and `replace(/\s/g, '_')`;
  - `filter` and `sort` with a comparator;
  - local-time day, month and year boundaries.

The central invariant is kept in `Db.Ledger.Valid()`. Each product has a
ghost opening stock and a ghost journal of the postings made since. The
product's `currentStock` is always the opening stock plus the IN quantities
minus the OUT quantities of its journal. The contracts of the ledger's
methods fix both ghost fields:

- `addProduct` opens the product's balance at its coerced initial stock,
  with an empty journal;
- an accepted `addTransaction` appends exactly the stored record to its
  product's journal and leaves every opening stock alone; a refused one
  changes neither;
- an `updateProduct` that sets `currentStock` explicitly is a correction:
  it opens a new balance at that stock. An edit without it keeps the
  opening stock and the journal;
- `deleteProduct` drops the product's balance and journal.

So a product's stock is its opening stock plus the net of the postings
accepted since, and `Db.StockIsReplay` shows it equals replaying those
postings one by one.

Behaviour kept as the code has it:

- `Number(tx.pricePerUnit) ?? product.price` never falls back, because
  `Number(...)` is never null or undefined. A posting without a price
  stores a NaN price and a NaN total (`Records.ResolvePrice`,
  `StockForm.FalsyPriceIsNotProductPrice`). The forms send no price when
  the field is falsy. A prefilled price of 0 is therefore stored as NaN,
  while a typed "0" is stored as 0.
- `dateFrom` is used as the raw instant, and only `dateTo` is pushed to
  23:59:59.999 local time. Without `dateFrom` the lower bound is the instant
  0, so transactions dated before 1970 drop out
  (`Records.OnlyDateToExcludesBeforeEpoch`).
- When a type is given, the product id of the filter is ignored
  (`Records.TypeBeatsProductId`).
- Only the exact text "OUT" is an outgoing movement.
- `addTransaction` writes the transaction and then, as a second write, the
  product. `deleteProduct` deletes the transactions and then the product.
  The model runs each as one sequential method and claims no atomicity.
- `addProduct` does not validate the name: an empty or blank name is
  stored, trimmed.

Instants are integer milliseconds. Local time is a fixed offset from UTC,
with a proleptic Gregorian calendar (`Calendar`). Quantities and prices are
reals, and NaN is modelled explicitly where the code can produce it
(`Js.Num`).

## Model

| member | source | states |
|---|---|---|
| Js.NumberOrZero | src/db.js:25-27 | `Number(x) \|\| 0`: a given number is kept, a missing or non-numeric one becomes 0 |
| Js.ToNumber | src/db.js:91 | `Number(x)` is NaN exactly when the input is absent, never null or undefined |
| Js.OrZero | src/pages/Reports.jsx:37 | `totalValue \|\| 0`: a NaN total counts as 0 and a finite one as itself |
| Js.Times | src/db.js:92 | `quantity * pricePerUnit` is NaN exactly when the price is NaN, else the product |
| JsStrings.Trim | src/db.js:23 | the trimmed name neither starts nor ends with white space and is no longer than the input |
| JsStrings.TrimIsSlice | src/db.js:23 | the trimmed text is a slice of the input, cut between a white-space prefix and a white-space suffix |
| JsStrings.TrimIdempotent | src/db.js:40 | trimming a trimmed name changes nothing |
| JsStrings.TrimEmptyIffAllSpace | src/pages/StockOut.jsx:39 | `note.trim()` is empty exactly when the note is all white space |
| JsStrings.Lower | src/pages/ProductList.jsx:27 | `toLowerCase` keeps the length and maps each character by the case rule |
| JsStrings.LowerIdempotent | src/pages/ProductList.jsx:27 | lower-casing twice is lower-casing once |
| JsStrings.IncludesTransitive | src/pages/ProductList.jsx:27 | a text containing `m` contains everything `m` contains |
| JsStrings.ReplaceSpaces | src/pages/Reports.jsx:80 | `replace(/\s/g, '_')` keeps the length, turns each white-space character into `ch`, keeps every other character, and leaves no white space |
| JsStrings.ReplaceSpacesConcat | src/pages/Reports.jsx:80 | replacing white space distributes over concatenation |
| JsStrings.ParseDecimalOfDecimal | src/pages/Reports.jsx:24 | `parseInt` of the decimal text of a year or month gives the number back |
| Calendar.EndOfDay | src/db.js:73-75 | `setHours(23, 59, 59, 999)` gives a local last millisecond of a day, at most one day after the instant |
| Calendar.EndOfDayIdempotent | src/db.js:74 | the end of a day is its own end of day |
| Calendar.EndOfDayMonotone | src/db.js:74 | a later `dateTo` never gives an earlier bound |
| Calendar.MonthsAbut | src/pages/Reports.jsx:25-26 | each month's window ends one millisecond before the next month's (or next year's) window starts |
| Calendar.MonthWithinYear | src/pages/Reports.jsx:22-30 | every month's window lies inside its year's window |
| Calendar.YearWindowLength | src/pages/Reports.jsx:28-29 | a year's window is 365 or 366 whole local days |
| Calendar.EndOfMonthIsEndOfDay | src/pages/Reports.jsx:26 | the end of a month is already a last millisecond of a day |
| Calendar.StartOfMonth | src/pages/Reports.jsx:25 | `startOfMonth` is a local midnight, and the first month starts on the year's first day |
| Calendar.EndOfMonth | src/pages/Reports.jsx:26 | `endOfMonth` is a last millisecond of a local day, after the month's start and 28 to 31 days from it |
| Records.NormalizeType | src/db.js:93 | the type is OUT exactly when the input is the text "OUT"; "IN" and "OUT" read back |
| Records.UnitOrDefault | src/db.js:24 | `unit \|\| 'copë'`: a missing or empty unit gives "copë", a given non-empty unit is kept, so the result is never empty |
| Records.NewProduct | src/db.js:22-30 | the stored record has the given id, a trimmed name, the given unit or "copë" when it is missing or empty, the three numbers coerced with `Number(x) \|\| 0`, and `createdAt == updatedAt == now` |
| Records.MergeUpdate | src/db.js:38-50 | every field given replaces the stored one (a name trimmed), every field absent keeps it, id and `createdAt` are kept, and `updatedAt` is `now` |
| Records.MergeUpdateIdempotent | src/db.js:38-50 | applying the same edit twice stores the same record as applying it once |
| Records.EmptyUpdateOnlyTouches | src/db.js:38-50 | an edit without fields changes only `updatedAt` |
| Records.IsLow | src/db.js:129 | a low product's stock is below its minimum; a minimum of 0 or less never flags; a positive minimum with no stock always does |
| Records.ResolvePrice | src/db.js:91 | the price is `Number(pricePerUnit)`: NaN exactly when none is given, and never the product's price |
| Records.PostStock | src/db.js:112-115 | the new stock is the old plus the quantity for IN and minus it for OUT |
| Records.CheckPosting | src/db.js:88-98 | the posting fails with "not found" exactly when the product is missing; it is accepted exactly when the product exists and it is not an OUT above the stock |
| Records.PostedRecord | src/db.js:99-111 | the stored transaction has the id, the product's id and current name, the normalised type, the coerced quantity, the resolved price, `totalValue == quantity * price`, the note or "", the given date or `now`, and `createdAt == now` |
| Records.PostedProduct | src/db.js:116-119 | the stock becomes the posting's new stock and `updatedAt` becomes `now`; id, name, unit, minimum, price and `createdAt` are kept |
| Records.ReplayIsNet | src/db.js:112-119 | replaying postings one by one gives the opening stock plus the IN quantities minus the OUT quantities |
| Records.ReplayConcat | src/db.js:112-119 | replaying two runs of postings is replaying the second from where the first ended |
| Records.Selected | src/db.js:61-69 | with a type given, exactly the postings of type "IN" or "OUT" named by it (any other text selects nothing); else with a non-zero product id, exactly that product's postings; else everything |
| Records.InWindow | src/db.js:71-80 | without dates everything is inside; with dates nothing before `dateFrom` (0 when absent), nothing a day or more after `dateTo`, and everything from `dateFrom` up to `dateTo` |
| Records.Matches | src/db.js:59-85 | an empty filter returns everything; a returned posting has the type given, or, with only a product id, that product |
| Records.TypeBeatsProductId | src/db.js:61-67 | with a type given, the filter's product id has no effect on what matches |
| Records.OnlyDateToExcludesBeforeEpoch | src/db.js:72 | with only `dateTo`, the lower bound is 0, so transactions dated before 1970 never match |
| Records.WindowEndsWithDay | src/db.js:73-78 | above `from`, a transaction is in the window exactly when it is not after the end of the `dateTo` day |
| Records.NewerOrSameIsTotalPreorder | src/db.js:82 | the date comparator orders every pair, transitively |
| Records.LexLeTotal | src/db.js:13 | the name order compares any two names |
| Records.LexLeTransitive | src/db.js:13 | the name order is transitive |
| Records.NameOrderIsTotalPreorder | src/db.js:13 | `orderBy('name')` orders every pair of products, transitively |
| Db.PostedEffects | src/db.js:87-121 | a rejected posting changes neither table; an accepted one adds one transaction under the next id with the product's current name, moves the stock up for IN and down for OUT (never below 0 for OUT), sets `createdAt` equal to the product's new `updatedAt` and leaves every other product unchanged |
| Db.ExactOutAccepted | src/db.js:94 | an OUT of exactly the stock on hand is accepted and leaves 0 |
| Db.PostingKeepsBalance | src/db.js:101-119 | an accepted posting keeps the ids, the product links, the balance of every product and the journals consistent |
| Db.Ledger.constructor | src/db.js:5-9 | the store starts empty, with both counters at 1, no opening stocks and no journals, and valid |
| Db.Ledger.AddProduct | src/db.js:20-32 | returns a fresh id not in the table, stores `NewProduct` under it, opens its balance at the coerced initial stock with an empty journal, leaves the transactions alone and keeps the invariant |
| Db.Ledger.UpdateProduct | src/db.js:34-51 | an unknown id changes nothing; otherwise only that product changes, to the merge of the edit; an explicit stock opens a new balance with an empty journal, any other edit keeps balance and journal; the invariant is kept |
| Db.Ledger.DeleteProduct | src/db.js:53-56 | removes the product, its balance and journal, and exactly the transactions of that product; everything else is unchanged and the invariant is kept |
| Db.Ledger.AddTransaction | src/db.js:87-121 | returns the error of `CheckPosting` or the new id; the tables change as `Posted` says; the transaction counter moves up by one after an acceptance and stays put after a refusal, so no id is reused; an accepted posting appends the stored record to its product's journal and keeps every opening stock, a refused one changes neither; after an accepted OUT the stock is not negative; the invariant (stock = opening + ΣIN − ΣOUT) is kept |
| Db.Ledger.Commit | src/db.js:101-119 | the two writes of an accepted posting, the transaction first and then the product, give the state `Posted` describes, append the record to the product's journal and keep the invariant |
| Db.Ledger.ProductsById | src/db.js:128 | the product table read in key order: every product once, ordered by id |
| Db.Ledger.TransactionsById | src/db.js:62-69 | the transaction table read in key order: every transaction once, ordered by id |
| Db.Ledger.GetProducts | src/db.js:12-14 | every product exactly once, ordered by name |
| Db.Ledger.GetTransactions | src/db.js:59-85 | exactly the stored transactions that the type, product and date rules select, each once, newest first |
| Db.Ledger.GetRecentTransactions | src/db.js:123-125 | at most `limit` (default 10) stored transactions, newest first; all of them when fewer; none left out is newer than one returned |
| Db.Ledger.GetLowStockProducts | src/db.js:127-130 | exactly the products with `minStock > 0` and stock below it, each once, in key order |
| Db.StockIsReplay | src/db.js:112-119 | in every valid state a product's stock is its opening stock replayed through the postings accepted since it was opened (the journal the ledger's contracts grow) |
| Reports.TotalIsConditionalSum | src/pages/Reports.jsx:35-40 | filtering by type and summing `totalValue \|\| 0` equals summing each transaction's contribution to that type |
| Reports.Total | src/pages/Reports.jsx:35-40 | a list without transactions of the type totals 0, and a list all of that type totals the sum of its values |
| Reports.TotalConcat | src/pages/Reports.jsx:35-40 | the totals of two lists joined add up |
| Reports.TotalsPartition | src/pages/Reports.jsx:35-40 | every transaction counts in exactly one total: IN plus OUT is the sum over the whole list |
| Reports.NaNCountsAsZero | src/pages/Reports.jsx:37 | a transaction with a NaN total leaves both totals unchanged |
| Reports.PdfFileName | src/pages/Reports.jsx:80 | the file name is 11 characters longer than the label and has no white space |
| Reports.MonthNamesDistinct | src/pages/Reports.jsx:7-10 | the twelve month names differ |
| Reports.Period | src/pages/Reports.jsx:46-49 | the label is not empty; a yearly label is all digits; a monthly label has a space right after the month's name |
| Reports.PeriodReadsBack | src/pages/Reports.jsx:46-49 | a monthly label is the month's name, a space and the year's digits; a yearly label is the year's digits |
| Reports.MonthlyPeriodInjective | src/pages/Reports.jsx:46-49 | different months or years give different monthly labels |
| Reports.PdfFileNameOfPeriod | src/pages/Reports.jsx:80 | the PDF is `Raport_<month>_<year>.pdf` for a monthly report and `Raport_<year>.pdf` for a yearly one |
| Reports.Window | src/pages/Reports.jsx:22-30 | the window of a month or year starts before it ends |
| Reports.ReportFilter | src/pages/Reports.jsx:31-34 | the query gives both dates and no type or product |
| Reports.ReportSelectsWindow | src/pages/Reports.jsx:31-34 | the query selects exactly the transactions dated from the first to the last millisecond of the month or year |
| Reports.MonthInsideYear | src/pages/Reports.jsx:22-30 | a month's report window lies inside its year's |
| Reports.Summarize | src/pages/Reports.jsx:41-50 | the count is the list's length, each total is the sum over its type, the two totals add up to the sum over the list, and the period is the label |
| Reports.LoadReport | src/pages/Reports.jsx:20-52 | the summary lists every stored transaction dated inside the window, once, newest first, and summarises that list |
| ProductList.EmptySearchShowsAll | src/pages/ProductList.jsx:24-26 | an empty search shows every product, in order |
| ProductList.Search | src/pages/ProductList.jsx:24-29 | the rows shown are products of the list, no more rows than products |
| ProductList.SearchShowsHits | src/pages/ProductList.jsx:27-28 | with a non-empty search, a product is shown exactly when its name, or its non-empty unit, contains the search, ignoring case |
| ProductList.SearchKeepsOrder | src/pages/ProductList.jsx:24-29 | the rows are an order-preserving subsequence of the product list |
| ProductList.SearchIgnoresCase | src/pages/ProductList.jsx:27-28 | searching for the lower-cased text shows the same rows |
| ProductList.LongerSearchNarrows | src/pages/ProductList.jsx:24-29 | the rows for a longer search are among those for any prefix of it |
| ProductList.Rows | src/pages/ProductList.jsx:99-101 | one row per shown product, in order, marked low exactly when `getLowStockProducts`' rule holds |
| ProductList.Load | src/pages/ProductList.jsx:13-29 | the rows are exactly the stored products that match the search, each once, in name order; a row is low iff `minStock > 0 && currentStock < minStock`, never with minimum 0 |
| Dashboard.ValuationConcat | src/pages/Dashboard.jsx:57-60 | the value of two lists joined is the sum of their values |
| Dashboard.Valuation | src/pages/Dashboard.jsx:57-60 | an empty list is worth 0 and a single product its stock times its price |
| Dashboard.ValuationNonNegative | src/pages/Dashboard.jsx:57-60 | a store whose stocks and prices are not negative is not worth less than 0 |
| Dashboard.ValuationOfNothing | src/pages/Dashboard.jsx:57-60 | an empty list is worth 0 and a product priced 0 adds nothing |
| Dashboard.ValuationRemoveAt | src/pages/Dashboard.jsx:57-60 | taking a product out of the list takes its stock times price out of the value |
| Dashboard.ValuationPermutation | src/pages/Dashboard.jsx:57-60 | the value does not depend on the order of the list |
| Dashboard.ValuationOfStore | src/pages/Dashboard.jsx:57-60 | any two listings of the same products, each once, have the same value |
| Dashboard.Preview | src/pages/Dashboard.jsx:141 | the alert shows the first min(5, n) low-stock products |
| Dashboard.MoreCount | src/pages/Dashboard.jsx:152-154 | the `+k` line is present exactly when there are more than 5 |
| Dashboard.AlertCountsAll | src/pages/Dashboard.jsx:141-154 | the shown products and `k` account for every low-stock product, with `k = n - 5` |
| Dashboard.Load | src/pages/Dashboard.jsx:43-60 | the view holds every product once in name order; the 8 newest stored transactions, newest first, each once, all of them when fewer, none left out newer; exactly the low-stock products, each once, in key order; their valuation; and the alert over them |
| StockForm.PriceArg | src/pages/StockOut.jsx:38 | no price is sent exactly when the field is falsy, else its number |
| StockForm.NoteArg | src/pages/StockOut.jsx:39 | no note is sent exactly when the note is all white space, else the non-empty trimmed note |
| StockForm.Find | src/pages/StockOut.jsx:21 | `find` gives the first product with the id, and none exactly when no product has it |
| StockForm.SelectedId | src/pages/StockOut.jsx:21 | `Number(productId)` is the chosen id, and below 1 for the empty selection |
| StockForm.EmptySelectionFindsNothing | src/pages/StockOut.jsx:21 | with nothing chosen, `find` selects no stored product |
| StockForm.GuardPassesPositive | src/pages/StockOut.jsx:26 | a submit without a product, without a quantity or with a quantity of 0 or less is ignored; one that passes posts a positive quantity, stored as typed |
| StockForm.Payload | src/pages/StockOut.jsx:34-41 | the payload carries the chosen product id and the page's type |
| StockForm.PriceAfterPost | src/pages/StockOut.jsx:45 | after a success the field holds the chosen product's price, prefilled, and is blank exactly when no product is selected |
| StockForm.StoredFromForm | src/pages/StockOut.jsx:34-41 | a posting from the form stores the quantity typed, the trimmed note, the typed or prefilled price when truthy and otherwise NaN (and then a NaN total), and the chosen date |
| StockForm.FalsyPriceIsNotProductPrice | src/pages/StockOut.jsx:38 | a blank field or a prefilled 0 stores NaN, not the product's price; a typed 0 stores 0 |
| StockOut.Available | src/pages/StockOut.jsx:21-22 | `available` is the selected product's stock, or 0 when none is selected |
| StockOut.SubmitDisabled | src/pages/StockOut.jsx:159 | the button is disabled while loading, with no product chosen or with no stock available; enabled means none of these |
| StockOut.EnabledMeansStock | src/pages/StockOut.jsx:159 | an enabled button means not loading and a listed product with positive stock chosen |
| StockOut.ClientCheckAgrees | src/pages/StockOut.jsx:27-30 | with the page's list equal to the store, a positive quantity passes the page's check exactly when `addTransaction` accepts it |
| StockOut.Page.constructor | src/pages/StockOut.jsx:6-19 | the form starts empty, with every stored product, in name order |
| StockOut.Page.SelectionEffect | src/pages/StockOut.jsx:58-62 | when a product is selected, the price field takes its price, overwriting it |
| StockOut.Page.Reload | src/pages/StockOut.jsx:46-47 | the list is reloaded from the store and the selection effect runs again |
| StockOut.Page.Succeeded | src/pages/StockOut.jsx:42-47 | success message, quantity and note cleared, the price reset, the list reloaded |
| StockOut.Page.Select | src/pages/StockOut.jsx:58-62 | choosing a product sets the id and runs the selection effect |
| StockOut.Page.Submit | src/pages/StockOut.jsx:24-56 | an ignored submit changes nothing; a quantity above `available` only shows the low-stock error and leaves the store alone; otherwise the payload is posted, the store changes as `Posted` says and the message is the outcome; after a success quantity and note are cleared, the list is reloaded and the price reset; after a failure list, quantity, note and price are kept |
| StockOut.Page.Post | src/pages/StockOut.jsx:31-55 | posts the payload; on success clears quantity and note, resets the price and reloads; on failure keeps the fields and shows the error; loading ends false |
| StockIn.Prefill | src/pages/StockIn.jsx:51-53 | the field takes the product's price only when it is falsy and a product is selected |
| StockIn.PrefillKeepsTyped | src/pages/StockIn.jsx:51-53 | choosing products one after another never overwrites a typed price |
| StockIn.PrefillIdempotent | src/pages/StockIn.jsx:51-53 | running the effect again changes nothing, a prefilled 0 included |
| StockIn.Page.constructor | src/pages/StockIn.jsx:6-19 | the form starts empty, with every stored product, in name order |
| StockIn.Page.Select | src/pages/StockIn.jsx:51-53 | choosing a product sets the id and prefills the price by `Prefill` |
| StockIn.Page.Succeeded | src/pages/StockIn.jsx:37-40 | success message, quantity and note cleared, the price reset from the chosen product |
| StockIn.Page.Submit | src/pages/StockIn.jsx:23-49 | an ignored submit changes nothing; otherwise the payload is posted, the store changes as `Posted` says and the message is the outcome; after a success quantity and note are cleared and the price reset from the chosen product; after a failure quantity, note and price are kept |
| StockIn.Page.Post | src/pages/StockIn.jsx:26-48 | posts the payload; on success clears quantity and note and resets the price; on failure keeps the fields; loading ends false |
| StockIn.StockInAccepted | src/pages/StockIn.jsx:29-36 | a stock-in of a stored product is always accepted and raises its stock by the quantity |

## Left out

- Categories and backup (`addCategory`, `getCategories`, `updateCategory`, `deleteCategory`, `exportBackup`, `importBackup`): pages import them, but they are not defined in `src/db.js`, which declares only schema version 1.
- `getProduct(id)`: a plain key lookup (`products[id]` on the map), with no rule of its own.
- The `...updates` spread in `updateProduct`: extra fields beyond the five product fields are not modelled.
- Db.Ledger.UpdateProduct: a non-numeric stock, minimum or price in an edit (`Number(x)` giving NaN) is not modelled; an edit's numbers are reals.
- Dexie, promises and `async`: each operation runs to completion before the next one starts, and there is no concurrency.
- Atomicity: the two writes of `addTransaction` and of `deleteProduct` are modelled in order, with nothing in between; a failure between them is not modelled.
- Date parsing and formatting (`new Date(text)`, `toISOString`, `slice(0, 16)`), time zones with daylight saving time, and the `RangeError` of an invalid date: instants are integers, and local time is a fixed offset.
- The transaction `date` is stored as an ISO string in the source and compared as an instant; the model stores the instant.
- Floating-point rounding, infinities and `toFixed`: quantities and prices are reals, and NaN is modelled only where the code can produce it.
- Full Unicode case mapping: `toLowerCase` is modelled for ASCII and Latin-1 capitals, which cover the Albanian alphabet.
- The order among transactions with the same date, and among products with the same name: the model proves the order by date (or name), not which of two equal keys comes first.
- The report's month and year selects: the model takes a month from 1 to 12 and a year as a natural number, the values those selects offer.
- Rendering, routing, translations, the PDF document body (jsPDF), printing, XLSX export, the install prompt, the service worker and the icon script.
- The two clock readings of `addTransaction`: `createdAt` and the default `date` come from two separate reads of the clock; the model passes one instant `now` for both.
- The code units of `orderBy('name')`: the store compares names by UTF-16 code unit, while `Records.LexLe` compares by code point. The two orders differ only when one name has a character above U+FFFF and the other one in U+E000–U+FFFF at the first position where they differ.
- The stock-in page's button state (`disabled={loading}`) is not modelled: it is just the loading flag.
