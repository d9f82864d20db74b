# Storefront core in Dafny

A model of the logic behind a small single-page storefront for a sports shop
(`app.tsx`). The shop keeps one store document: a product list, sales and
three optional settings. An administrator (access code `POWERSPORT`) manages
stock and can replace the whole catalogue from a published Google Sheet. A
customer (access code `CATALOGO`) browses the in-stock catalogue, fills a cart
and sees its total.

The model covers:

- **Text primitives** (`text.dfy`): the JavaScript `trim`,
  `toUpperCase`/`toLowerCase` (ASCII and Latin-1), `includes` and the default
  string order of `sort`. Two helpers serve the rest of the model: the
  leading-whitespace skip of `parseInt`/`parseFloat` (`Text.TrimStart`) and
  joining with a separator (`Text.JoinWith`), which states what a split loses.
- **`parseCSV`** (`csv.dfy`): lines are split at `\r?\n` and the header is
  dropped, as are whitespace-only lines. Each line is scanned once with an
  "inside quotes" flag. A quote only flips the flag, a comma outside quotes
  ends a cell, and cells are trimmed.
- **`parseInt` / `parseFloat`** (`numbers.dfy`) as the row coercion calls
  them. This covers leading whitespace, one sign, the `0x` prefix of
  `parseInt`, and the longest decimal literal of `parseFloat`. `NaN` is `None`.
- **The two URL rewrites** (`urls.dfy`):
  - `fixImageUrl` turns a Drive link into a direct image link.
  - The sync turns a Sheets link into its CSV export link.
  - Both regular expressions are modelled as an explicit leftmost, greedy scan.
- **`syncWithGoogleSheets`** (`sync.dfy`): the guard on the sheet setting,
  the fetch, the coercion of every row into a product, and the wholesale
  replacement of the product list.
- **The state commands** (`store.dfy`, `commands.dfy`):
  - the `saveData` role guard
  - `updateQuantity`
  - `addToCart` and the cart's minus, plus and remove buttons
  - `handleLogin`
  - the administrator's stock/catalogue toggle and the two settings inputs
  - all of these as steps of one immutable session
- **The derived views** (`views.dfy`): `categories`, `filteredProducts` and
  `cartTotal`.

The network, the clock and the id generator are parameters of the sync:
- `fetch: string -> Option<string>` gives the body of an ok response, or
  `None` for a failed or non-ok one.
- `ids: nat -> string` is the id drawn for row `k`.
- `clock: nat -> int` is what `Date.now()` reads while row `k` is built.

Money is an exact `real`. `price * units` is written as repeated addition
(`Views.Times`), and `Views.TimesIsProduct` shows that it is the product.

Behaviour of the code worth knowing, each stated as a lemma or a contract:
- Quote characters never reach a cell: a `"` only toggles the "inside
  quotes" flag (app.tsx:91).
- So a doubled quote `""` yields nothing. This differs from the escaped quote
  of section 2 of RFC 4180.
- `|| 0` replaces only `NaN` and 0, so a negative quantity, price or cost
  in the sheet is imported as it is (app.tsx:135-137,
  `Sync.NegativeQuantityImported`). Only `updateQuantity` floors at 0.
- Each row reads the clock anew and adds its index (app.tsx:140).
  Strictly increasing timestamps therefore need a clock that never runs
  backwards (`Sync.AddedAtIncreasing`).
- A product whose category upper-cases to `TODO` gives a second `TODO` tab
  (`Views.CatchAllCategoryRepeated`).
- The settings inputs write the document without `saveData`
  (app.tsx:304, 308). Only the administrator can open the settings view.

## Model

| member | source | states |
|---|---|---|
| Text.Trim | app.tsx:56 | the trimmed string is a slice of the input whose margins are all whitespace and whose ends are not; it is empty exactly when the input is whitespace-only |
| Text.TrimIdempotent | app.tsx:85 | trimming twice is trimming once |
| Text.TrimTrimmed | app.tsx:56 | a string with no whitespace at either end is its own trim |
| Text.UpperIsUpper | app.tsx:131-139 | `toUpperCase` output is already upper case, so upper-casing is idempotent |
| Text.Upper | app.tsx:131-139 | `toUpperCase` keeps the length, turns each of `a`..`z` into its capital `A`..`Z`, leaves no ASCII lower-case letter and keeps every other ASCII character |
| Text.Lower | app.tsx:165 | `toLowerCase` keeps the length, turns each of `A`..`Z` into its small letter `a`..`z`, leaves no ASCII capital and keeps every other ASCII character |
| Text.Contains | app.tsx:165 | `includes` holds exactly when the needle occurs at some offset of the haystack |
| Text.LessIrreflexive | app.tsx:158 | the default `sort` order on strings never puts a string before itself |
| Text.LessTransitive | app.tsx:158 | the default `sort` order on strings is transitive |
| Text.LessTotal | app.tsx:158 | any two different strings are ordered one way or the other |
| Csv.SplitLines | app.tsx:83 | `split(/\r?\n/)` always gives at least one line (its full contract is in the three lemmas below) |
| Csv.SplitLinesCount | app.tsx:83 | splitting at `\r?\n` gives one more line than the text has line feeds |
| Csv.SplitLinesNoLF | app.tsx:83 | no line produced by the split holds a line feed |
| Csv.SplitLinesJoin | app.tsx:83 | joining the lines back with LF gives the text with every CR LF turned into LF: only separators are lost |
| Csv.ScanInvariant | app.tsx:88-95 | from any point of the character loop, the scan ends with one cell per separating comma plus one, cells free of quotes, and the cells joined by commas equal to the line without its quotes |
| Csv.RawFieldsShape | app.tsx:86-95 | a line's untrimmed cells number one more than its commas outside quotes, hold no quote, and join back to the line minus its quotes |
| Csv.Scan | app.tsx:89-95 | the character loop only appends: the cells pushed before any point are kept, and at least one more is pushed by the end |
| Csv.RawFields | app.tsx:86-95 | every line gives at least one cell |
| Csv.ParseLine | app.tsx:86-96 | a row has one cell per raw field, and every cell is trimmed |
| Csv.ParseLineShape | app.tsx:86-96 | every row has one cell more than the line has commas outside quotes; cell `k` is the trimmed raw cell `k`, free of double quotes |
| Csv.RawFieldsWriteRow | app.tsx:86-95 | any cells written as a line, each bare (no comma, no quote) or between quotes (no quote), with commas between them, are read back exactly: a comma inside quotes stays in its cell and only the commas between cells separate |
| Csv.ParseLineWriteRow | app.tsx:86-96 | such a line whose cells have no whitespace at either end parses back to exactly those cells |
| Csv.QuotedSeparatorExample | app.tsx:88-95 | the line `"a,b",c` gives the cells `a,b` and `c` |
| Csv.Rows | app.tsx:84-97 | the loop never gives more rows than there are lines |
| Csv.RowsMatchNonBlank | app.tsx:84-96 | the loop emits exactly one row per line that is not whitespace-only, in order |
| Csv.ParseCsv | app.tsx:81-99 | the result has one row per non-blank line after the header, and row `k` is the parse of the `k`-th such line |
| Csv.QuotedCommaExample | app.tsx:83-96 | `H\n"a","b,c","d"` parses to the single row `a`, `b,c`, `d` |
| Numbers.UnsignedInt | app.tsx:135 | the unsigned part of `parseInt` yields a number exactly when it starts with a digit of its radix, a `0x`/`0X` prefix selecting base 16 |
| Numbers.ParseInt | app.tsx:135 | `parseInt` yields a number exactly when, after leading whitespace and one sign, a digit of the radix follows |
| Numbers.UnsignedFloat | app.tsx:136-137 | the unsigned part of `parseFloat` yields a number exactly when it starts with a digit, or with a dot and a digit |
| Numbers.ParseFloat | app.tsx:136-137 | `parseFloat` yields a number exactly when, after leading whitespace and one sign, a digit (or a dot and a digit) follows |
| Numbers.IntOrZero | app.tsx:135 | `parseInt` falling back to 0: the parsed number whenever `parseInt` gives one, and 0 for `NaN` |
| Numbers.RealOrZero | app.tsx:136-137 | `parseFloat` falling back to 0: the parsed number whenever `parseFloat` gives one, and 0 for `NaN` |
| Numbers.ParseIntDecimal | app.tsx:135 | `parseInt` reads back any integer written in decimal, and stops at the first character after it that is not a digit |
| Numbers.ParseFloatDecimal | app.tsx:136-137 | `parseFloat` reads back any integer written in decimal as the same value |
| Numbers.NatDigitsValue | app.tsx:135 | the decimal digits of `n` denote `n` |
| Numbers.NoNumeralIsZero | app.tsx:135-137 | a cell whose first non-blank character cannot start a number gives 0 for quantity, price and cost |
| Numbers.HexExample | app.tsx:135 | `parseInt("0x1A")` is 26: with no radix the hexadecimal prefix is honoured |
| Urls.TokenRun | app.tsx:103 | the greedy run of `[a-zA-Z0-9_-]` characters is all token characters and stops at the end or at a non-token character |
| Urls.MatchAtFrom | app.tsx:103 | at one position the expression matches exactly when some alternative occurs there followed by at least 25 token characters, and the capture is that run |
| Urls.FirstMatch | app.tsx:103 | what `match` captures is a run of at least 25 token characters |
| Urls.FirstMatchLeftmost | app.tsx:103 | a result is the capture at a position before which nothing matches; no result means no position matches |
| Urls.FirstMatchToken | app.tsx:103 | what the match captures is a run of at least 25 token characters |
| Urls.FixImageUrl | app.tsx:101-108 | an empty URL stays empty; a Drive or Docs link with a matched id becomes the direct `lh3.googleusercontent.com/d/` link of that id; any other URL is unchanged |
| Urls.DirectLinkToken | app.tsx:103-105 | the expression finds the id again inside the direct link built from it |
| Urls.FixImageUrlIdempotent | app.tsx:101-108 | rewriting an image link twice is rewriting it once |
| Urls.SheetCsvUrl | app.tsx:117-123 | a Docs link with an id after `/d/` becomes the CSV export link of that id; any other setting is fetched verbatim |
| Urls.SheetLinkRewritten | app.tsx:117-123 | a Sheets link `.../spreadsheets/d/<id>` followed by a non-token character is rewritten to the export link of exactly `<id>` |
| Urls.SheetCsvUrlIdempotent | app.tsx:117-123 | rewriting a sheet setting twice is rewriting it once |
| Sync.TextField | app.tsx:131-139 | an empty or missing cell gives the upper-cased fallback (the fallback itself when it is already upper case); any other cell gives its own text upper-cased, of the same length; the result is never empty |
| Sync.CoerceRow | app.tsx:129-141 | coercion never fails: it keeps the drawn id and timestamp, every text field is non-empty and upper case: a filled cell gives its own text upper-cased and an empty one `N/A`, `PRODUCTO` or `GENERAL`; the image is the rewritten eighth cell (`cols[7]`); the number fields are `parseInt`/`parseFloat` of their cells falling back to 0, so 0 for an empty cell |
| Sync.CoerceRows | app.tsx:129-141 | one product per row, row `k` built with id `ids(k)` and timestamp `clock(k) + k` |
| Sync.EmptyRowDefaults | app.tsx:131-139 | an empty row gives `N/A`, `PRODUCTO`, `N/A`, `N/A`, `GENERAL`, zero quantity, price and cost, and no image |
| Sync.UpperCellKept | app.tsx:131-139 | a text cell already in upper case is kept exactly as written |
| Sync.DecimalCells | app.tsx:135-137 | a number cell holding an integer in decimal reads back as that integer, both as quantity and as price or cost |
| Sync.NegativeQuantityImported | app.tsx:135 | a quantity cell `-3` is imported as -3 |
| Sync.AddedAtIncreasing | app.tsx:140 | with a clock that never runs backwards, timestamps strictly increase down the sheet |
| Sync.IdsDistinct | app.tsx:130 | fresh ids give pairwise distinct product ids |
| Sync.SyncWithSheets | app.tsx:110-150 | no sheet setting means no change; a failed or non-ok fetch means no change; otherwise (for an administrator) the product list, and nothing else, becomes the coerced rows of the parsed text; a viewer's sync changes nothing |
| Sync.SyncedRows | app.tsx:128-142 | after a sync that went through, there is exactly one product per non-blank line after the header, in line order, each coerced from that line |
| Sync.SheetRowExample | app.tsx:129-141 | the row `NIKE, AirMax, 42, BLACK, 5, 100, 60, , CALZADO` gives brand `NIKE`, name `AIRMAX`, category `CALZADO`, 5 units, price 100, cost 60 and no image |
| Store.SaveData | app.tsx:49-53 | a viewer's save changes nothing; an administrator's save replaces the store document and nothing else |
| Store.AdjustQuantity | app.tsx:153 | only quantities change; products with another id are untouched; the matching product moves by `delta` unless that would go below 0, where it stops at 0; non-negative stock stays non-negative |
| Store.UpdateQuantity | app.tsx:152-155 | a viewer changes nothing; an administrator changes the product list only, to the adjusted list |
| Store.AdjustQuantityUndo | app.tsx:153 | moving stock by `delta` and back by `-delta` restores the list when no count hits the floor |
| Store.MapEntries | app.tsx:174 | the per-entry update of the cart keeps the length and the ids, leaves other products' entries alone, and applies the update to the product's entries |
| Store.MapEntriesQuantity | app.tsx:174 | after the per-entry update, the product's units are the update of its old units and every other product's units are unchanged |
| Store.AddToCart | app.tsx:171-177 | with an entry already there the cart keeps its length and the product of every position; otherwise the entry for one unit is appended at the end; the product is in the cart afterwards; one entry per product with at least one unit is kept |
| Store.AddToCartQuantity | app.tsx:171-177 | `addToCart` adds exactly one unit of the product and none of any other |
| Store.Decrement | app.tsx:350 | the minus button keeps the entries and their order, and keeps the cart well formed |
| Store.DecrementQuantity | app.tsx:350 | the minus button takes one unit of the product but never goes below one, and changes no other product |
| Store.Increment | app.tsx:352 | the plus button keeps the entries and their order, and keeps the cart well formed |
| Store.IncrementQuantity | app.tsx:352 | the plus button adds one unit of a product already in the cart, and creates no entry |
| Store.Remove | app.tsx:354 | the remove button deletes every entry of the product; the rest is an order-preserving subsequence of the cart that keeps every other entry |
| Store.RemoveCount | app.tsx:354 | every entry of another product is kept as often as it was there, and no entry of the product is |
| Store.RemoveWellFormed | app.tsx:354 | removing an entry keeps one entry per product with at least one unit |
| Store.RemoveQuantity | app.tsx:354 | removing a product takes all its units and none of any other product |
| Store.HandleLogin | app.tsx:55-72 | the trimmed, upper-cased code `POWERSPORT` grants the administrator role and the stock view; `CATALOGO` grants the viewer role and the catalogue view; any other code changes nothing; login never touches the document or the cart |
| Store.LoginNormalises | app.tsx:56 | login only sees the trimmed, upper-cased code |
| Views.CategoryKeys | app.tsx:158 | a non-empty key is in the list exactly when it is the upper-cased category of some product |
| Views.Dedup | app.tsx:158 | the `Set` keeps each value once, and no other values |
| Views.DropEmpty | app.tsx:158 | `filter(Boolean)` drops exactly the empty strings and keeps a duplicate-free list duplicate-free |
| Views.InsertSorted | app.tsx:158 | inserting adds exactly one copy of the value and keeps an ascending list ascending when the value is new |
| Views.Sort | app.tsx:158 | sorting is a permutation, and it is strictly ascending when there are no duplicates |
| Views.Categories | app.tsx:157-160 | `TODO` comes first; the rest is strictly ascending and holds exactly the non-empty upper-cased categories of the products |
| Views.CatchAllCategoryRepeated | app.tsx:158-159 | a product filed under `todo` yields the tabs `TODO`, `TODO` |
| Views.FilteredProducts | app.tsx:162-169 | the result is an order-preserving subsequence of the products; every product in it passes the mode, search and category tests, and every product that passes is in it |
| Views.InStock | app.tsx:164 | the result is an order-preserving subsequence of the input; only products with stock remain, and every product with stock remains |
| Views.InStockCount | app.tsx:164 | a product with stock is kept as often as it is listed, and one without is dropped |
| Views.FilteredProductsCount | app.tsx:162-169 | every product that passes the tests appears as often as in the input, and every other product not at all |
| Views.CatalogIsStockInStock | app.tsx:164 | the catalogue view is the stock view less the products without stock |
| Views.StockShowsAll | app.tsx:162-169 | with no search text and the `TODO` tab, the stock view lists every product |
| Views.IndexOf | app.tsx:180 | `find` gives the first product with the id, or reports that none has it |
| Views.Find | app.tsx:180 | the product found has the id and no earlier product has it; nothing is found only when no product has the id |
| Views.UnitPrice | app.tsx:180-181 | one unit costs the price of the first product with the id, 0 when no product has it, and never less than 0 when no price is |
| Views.LineTotal | app.tsx:180-181 | an entry with a non-negative count at a non-negative price adds a non-negative amount |
| Views.CartTotal | app.tsx:179-182 | with no negative price and no negative count the total is not negative |
| Views.TimesIsProduct | app.tsx:181 | the repeated addition equals `price * units` |
| Views.LineTotalIsPriceTimesUnits | app.tsx:180-181 | an entry adds the price of the product it names times its units, or nothing when no product has that id |
| Views.CartTotalIsSum | app.tsx:179-182 | the left fold of `reduce` equals the sum of the entries' lines |
| Views.SumLinesSplit | app.tsx:179-182 | the total splits into one product's units at its price plus the total of the rest of the cart |
| Views.AddToCartTotal | app.tsx:171-182 | `addToCart` raises the total by one unit price |
| Views.IncrementTotal | app.tsx:352 | the plus button raises the total by one unit price when the product is in the cart |
| Views.DecrementTotal | app.tsx:350 | the minus button lowers the total by one unit price unless the product is down to one unit |
| Views.RemoveTotal | app.tsx:354 | the remove button lowers the total by everything the product contributed |
| Views.CartTotalExample | app.tsx:179-182 | two units at 10 and an entry whose product is gone total 20 |
| Commands.ToggleMode | app.tsx:208-212 | an administrator's toggle sets the display mode and nothing else; a viewer has no toggle |
| Commands.EditSettings | app.tsx:304-308 | an administrator's settings inputs replace the sheet link and WhatsApp number and nothing else; a viewer cannot reach them |
| Commands.EditSheetFeedsSync | app.tsx:304 | the link an administrator types is the sheet setting the next sync reads |
| Commands.Step | app.tsx:49-72 | only login moves the code or role; only login and the toggle move the mode; only stock buttons, sync and the settings inputs touch the document, the inputs only its two settings; only cart buttons touch the cart; the cart stays well formed; a viewer's commands other than login change neither the document nor the mode |
| Commands.CartStaysWellFormed | app.tsx:171-177 | whatever commands run, the cart keeps one entry per product with at least one unit each |
| Commands.ViewerNeverWrites | app.tsx:49-53 | a viewer who does not log in again never changes the store document |
| Commands.StockButtonsKeepCountsNonNegative | app.tsx:152-155 | without a sync, no run of commands makes a stock count negative |

## Left out

- Local storage: the load at app.tsx:35-47, the writes in `saveData` and `handleLogin`, and the fixed `store_data_POWERSPORT` key. A save is modelled as replacing the store document.
- `handleLogout`: it clears storage and reloads the page, which is I/O only.
- `alert`, `setView`, the `isSyncing` flag and the asynchronous suspension of the sync. These are user-interface effects, not logic.
- `fetch`, `crypto.randomUUID` and `Date.now`. They are parameters of `Sync.SyncWithSheets` and are not modelled further.
- The JSX views, the login screen, modals, printing, the fullscreen image, and the WhatsApp order message. The message depends on `toLocaleString` and `encodeURIComponent`, which are locale-dependent library behaviour.
- `Services/geminiService.ts`: a wrapper over an external AI SDK that the import flow never calls.
- Numbers.ParseFloat: reads an exact decimal value. Double rounding, `Infinity`, and literals too large for a double are not modelled. Prices are exact `real`s and `price * units` is exact.
- Numbers.UnsignedFloat: the text `Infinity` (after an optional sign) is a number for `parseFloat` and `None` here, because an exact `real` has no infinity. A sheet cell `Infinity` would import an infinite price or cost in the app and 0 in the model.
- Numbers.ParseInt: the value is the exact integer. `parseInt` returns a double, so digit runs beyond 2^53 are rounded and very long ones become `Infinity`.
- Text.UpperChar: case mapping covers ASCII and Latin-1 only. Other scripts and the two-character upper case of `ß` are left out.
- Text.Less: compares code points of `char`. JavaScript compares UTF-16 code units, which orders characters outside the Basic Multilingual Plane differently.
- Store.AddToCartQuantity, Store.IncrementQuantity, Store.DecrementQuantity, Views.AddToCartTotal, Views.IncrementTotal and Views.DecrementTotal are stated for a well-formed cart: one entry per product, each with at least one unit. With duplicate entries the per-entry update would move each entry separately. Commands.CartStaysWellFormed shows that every cart the app builds is well formed.
