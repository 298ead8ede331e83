# EzziHomeGadgets storefront — a Dafny model

This model covers the bookkeeping at the heart of the storefront's React app:

- **Catalog.** The product list is read from a comma-separated text. The text is trimmed and split into lines. The first line holds the header names. Each later line becomes one record, keyed by the lower-cased, trimmed header names. `id` and `price` go through `parseFloat`; every other field stays text.
- **Cart.** The cart holds one line per product id. The add, update-quantity and remove handlers each turn the previous cart into the next one.
- **Derived figures.** The item count in the header is a fold over the cart. So is the price total in the cart modal.
- **Modal controls.** The modal's ±1 buttons ask the quantity handler for `quantity - 1` and `quantity + 1`. Its checkout button is disabled on an empty cart.
- **Checkout.** An empty cart raises an alert. Otherwise checkout composes the order message and opens a WhatsApp link carrying the encoded message.

Modules:

| module | file | models |
|---|---|---|
| `Wrappers` | wrappers.dfy | `Option` |
| `JsText` | jstext.dfy | the JavaScript string built-ins the code relies on: `trim`, `split` and `join` on one character, `toLowerCase`, integer interpolation, and `parseFloat` on integer text |
| `Types` | types.dfy | `Product` and `CartItem` |
| `Cart` | cart.dfy | the cart handlers and the item count, as pure functions from the previous cart to the next |
| `Catalog` | catalog.dfy | `parseCsv`: the pure definition, the field-by-field reducer and the row loop as methods, and the properties of the parse |
| `Checkout` | checkout.dfy | the checkout guard, the order message and the link |
| `CartModal` | cartmodal.dfy | the modal's total, its quantity controls and its checkout button |
| `Storefront` | storefront.dfy | class `App`: the two state cells (products and cart), replaced by the mount effect and the handlers |

Representation choices:

- Ids, prices and quantities are integers, and every sum over them is exact. A price is the integer that `parseFloat` reads from the catalog cell, in the units the catalog writes: a cell `1500` is 1500, and the fraction of a cell such as `29.99` is dropped (see `JsText.ParseNumber` under "## Left out").
- A parsed catalog row is a `map<string, Value>`, as the source's untyped object is. A value is `Number(n)`, `NotANumber` or `Text(s)`. `Catalog.ToProduct` reads a `Product` back out of a record that has all five fields with the right kinds.
- Three things the app takes from outside are parameters:
  - `money`, for `toFixed(2)`;
  - `encode`, for `encodeURIComponent`;
  - `phone`, for the shop's WhatsApp number, which lives in the constants module.
- `alert` and `window.open` become the two cases of `Checkout.Outcome`.

At these points the model follows App.tsx as written:

- A summary line reads `name (xQ) - PKR amount`, with an ASCII `x` and a hyphen (App.tsx:75).
- Header names that are not product fields become extra keys (App.tsx:24-29). When two columns lower-case to the same name, the later column's cell is kept. A column named `__proto__` stores nothing: the assignment runs the prototype setter, which ignores a string.
- A data line with fewer cells than header names makes `values[index].trim()` throw (App.tsx:25). The model's parse returns `None`; `App.LoadCatalog` reports the failure and leaves the product list as it was.

## Model

| member | source | states |
|---|---|---|
| JsText.TrimStart | App.tsx:16 | defines `trimStart`: drop white space characters from the front one by one; `TrimStartSpec` states what it leaves |
| JsText.TrimEnd | App.tsx:16 | defines `trimEnd`: drop white space characters from the back one by one; `TrimEndSpec` states what it leaves |
| JsText.Trim | App.tsx:16-17 | defines `trim` as `trimEnd` after `trimStart`; `TrimEnds`, `TrimFixed` and `TrimIdempotent` state its properties |
| JsText.TrimStartSpec | App.tsx:16 | `trimStart` removes exactly the leading white space: what remains is a suffix of the input whose first character is not white space, and every removed character is white space |
| JsText.TrimEndSpec | App.tsx:16 | `trimEnd` removes exactly the trailing white space: what remains is a prefix whose last character is not white space, and every removed character is white space |
| JsText.TrimEnds | App.tsx:16-17 | what `trim` leaves is no longer than its input and neither starts nor ends with white space |
| JsText.TrimFixed | App.tsx:25 | `trim` leaves a string unchanged if and only if the string is empty or neither end is white space |
| JsText.TrimIdempotent | App.tsx:16 | trimming twice gives the same as trimming once |
| JsText.Lower | App.tsx:24 | defines `toLowerCase` character by character; `LowerChars` and `LowerIdempotent` state its properties |
| JsText.LowerChars | App.tsx:24 | `toLowerCase` keeps the length and maps every character on its own |
| JsText.LowerIdempotent | App.tsx:24 | lower-casing twice gives the same as lower-casing once |
| JsText.Split | App.tsx:16-17 | `split` on one character gives one more piece than there are separators, so even `""` gives one piece |
| JsText.Join | App.tsx:76 | defines `join`: the pieces with one separator between neighbours, `""` for no pieces; `JoinSplit` and `SplitJoin` tie it to `split` |
| JsText.JoinSplit | App.tsx:21 | no piece of a split holds the separator, and joining the pieces back with it gives the input |
| JsText.SplitJoin | App.tsx:76 | `split` undoes `join` when no piece holds the separator |
| JsText.DecimalString | App.tsx:75 | an interpolated integer is non-empty text of digits, ends in a digit, and has a leading minus exactly for negatives |
| JsText.ParseNumber | App.tsx:27 | defines `parseFloat` on integer text: skip leading white space, read an optional sign and the longest digit run; no digit gives `None` (`NaN`); `ParseDecimalString` states that it reads back every interpolated integer |
| JsText.LeadingDigits | App.tsx:27 | the digit run `parseFloat` reads is the longest all-digit prefix of its input |
| JsText.NatDigitsValue | App.tsx:75 | the value of a natural number's digits is that number |
| JsText.ParseDecimalString | App.tsx:27 | `parseFloat` reads back every integer that interpolation writes |
| Cart.Reduce | App.tsx:86 | a left-to-right `reduce` from a start value is that start value plus the reference sum |
| Cart.Find | App.tsx:41 | `find` by id succeeds exactly when some line carries the id, and returns the first such line |
| Cart.FindUnique | App.tsx:41 | when ids are unique, `find` returns the one line with the id |
| Cart.Incremented | App.tsx:43-45 | the add handler's `map` keeps the length, raises every line with the id by one and leaves every other line as it was |
| Cart.WithQuantity | App.tsx:56-58 | the update handler's `map` keeps the length, gives every line with the id the new quantity and leaves every other line as it was |
| Cart.AddToCart | App.tsx:39-49 | after an add the id is in the cart; an absent id appends `CartItem(product, 1)`, a present one bumps its line |
| Cart.RemoveItem | App.tsx:62-64 | the remove filter keeps exactly the lines whose id differs, leaves no line with the id and never lengthens the cart |
| Cart.UpdateQuantity | App.tsx:51-60 | a non-positive quantity leaves no line with the id; a positive one keeps the length |
| Cart.ItemCount | App.tsx:85-87 | the item count is the sum of the line quantities |
| Cart.AddPresent | App.tsx:41-45 | adding a product whose id is on line `k` raises only that line's quantity by one; length, order and all other lines stay |
| Cart.AddAbsent | App.tsx:47 | adding a product whose id is absent appends exactly one line, with quantity 1, after the existing lines |
| Cart.UpdatePresent | App.tsx:56-58 | a positive quantity is written onto the matching line and nothing else changes |
| Cart.RemoveAbsent | App.tsx:63 | removing an id that is not in the cart changes nothing |
| Cart.RemovePresent | App.tsx:62-64 | removing the id of line `k` drops exactly that line and keeps the others in their order |
| Cart.RemoveIdempotent | App.tsx:62-64 | removing the same id twice gives the same as removing it once |
| Cart.UpdateNonPositive | App.tsx:53-54 | a quantity of zero or less drops exactly the matching line and keeps the others in their order |
| Cart.UpdateAbsent | App.tsx:51-60 | updating an id that is not in the cart, to any quantity, changes nothing: no line is ever created |
| Cart.RemoveKeepsWellFormed | App.tsx:62-64 | removal keeps the ids unique and every quantity at least one |
| Cart.AddKeepsWellFormed | App.tsx:39-49 | adding keeps the ids unique and every quantity at least one |
| Cart.UpdateKeepsWellFormed | App.tsx:51-60 | updating keeps the ids unique and every quantity at least one |
| Cart.CountAtLeastLines | App.tsx:85-87 | the item count of a cart whose quantities are all positive is at least its number of lines, and it is zero exactly for the empty cart |
| Cart.AddCount | App.tsx:39-49 | every add raises the item count by exactly one |
| Cart.RemoveCount | App.tsx:62-64 | removing line `k` lowers the item count by that line's quantity |
| Cart.UpdateCount | App.tsx:56-58 | writing `q` onto line `k` moves the item count by `q` minus the old quantity |
| Catalog.Stored | App.tsx:27-29 | an assignment creates an own property exactly when the key is not `__proto__` |
| Catalog.FieldValue | App.tsx:26-30 | defines the stored value: `id` and `price` go through `parseFloat` (`NotANumber` for `NaN`), every other key keeps the trimmed text |
| Catalog.HeaderNames | App.tsx:17 | defines the header names: the line split on commas, each name trimmed (`TrimAll`, `HeaderRoundTrip`) |
| Catalog.TrimAll | App.tsx:17 | trimming every header name keeps the count and trims each name |
| Catalog.Lines | App.tsx:16 | the catalog text splits into one more line than it has line feeds once trimmed |
| Catalog.Header | App.tsx:16-17 | defines the header of a catalog text: the header names of its first line; `HeaderRoundTrip` states that a joined plain header reads back |
| Catalog.BuildRecord | App.tsx:22-32 | the keys of a row's record are exactly the lower-cased header names other than `__proto__` |
| Catalog.FillRecord | App.tsx:22-32 | the reducer, run field by field over an accumulator, builds the row's record |
| Catalog.KeyStored | App.tsx:24-29 | a column's lower-cased name is a key of the record exactly when it is not `__proto__` |
| Catalog.LastWins | App.tsx:24-30 | a column that no later column shares its lower-cased name with holds its own trimmed cell, as a number when the key is `id` or `price` and as text otherwise, unless its name is `__proto__` |
| Catalog.ParseRows | App.tsx:20-34 | defines the row mapping: one record per line in order, `None` as soon as a line is short; `ParseRowsSome` and `ParseRowsValues` state it |
| Catalog.ParseRowsSome | App.tsx:20-34 | the row mapping succeeds exactly when every line has at least as many cells as there are headers |
| Catalog.ParseRowsValues | App.tsx:20-34 | a successful row mapping yields one record per line, in order, each built from that line's cells |
| Catalog.DataLines | App.tsx:18 | there is one data line per line feed of the trimmed text |
| Catalog.ParseCsv | App.tsx:15-35 | the parse succeeds exactly when no data line is short; it gives one record per data line, in input order, each built from the trimmed, lower-cased header names and that line's cells |
| Catalog.ShortLineFails | App.tsx:25 | a data line with fewer cells than header names makes the whole parse fail |
| Catalog.ParsedRecords | App.tsx:20-34 | a list with one matching record per data line is the parse's result |
| Catalog.ParseCatalog | App.tsx:15-35 | the row loop, which stops at the first short line, returns exactly the parse's result |
| Catalog.ExtraCellsIgnored | App.tsx:22-25 | cells beyond the number of header names do not affect the record |
| Catalog.ColumnOrderIrrelevant | App.tsx:22-32 | with distinct names, reordering the columns and their cells together gives the same record |
| Catalog.HeaderRoundTrip | App.tsx:17 | the header names of a comma-joined plain header are those names |
| Catalog.RowTextFields | App.tsx:21 | a product's row splits back into its five fields, holds no line feed and does not end in white space |
| Catalog.RowRecord | App.tsx:20-34 | a product's row, under the header `id,name,price,description,imageurl`, parses to a record that reads back as that product |
| Catalog.CatalogParses | App.tsx:15-35 | a plain catalog parses to one record per product, each built from that product's row |
| Catalog.RoundTripWith | App.tsx:15-35 | a plain catalog under a header naming the five fields in order parses back to its products |
| Catalog.CatalogRoundTrip | App.tsx:15-35 | writing products without commas, line feeds or edge white space as a catalog and parsing it gives back the same products, in order |
| Types.LineTotal | App.tsx:75 | defines a line's total, price × quantity, the term of both total folds (App.tsx:72, components/CartModal.tsx:24) |
| Checkout.OrderTotal | App.tsx:72 | the checkout total is the sum of price × quantity over the lines |
| Checkout.HandleCheckout | App.tsx:66-80 | checkout raises the empty-cart alert exactly when the cart is empty; otherwise the link is `https://wa.me/`, the number, `?text=` and the encoded message |
| Checkout.DetailLine | App.tsx:75 | defines one summary line: the name, ` (x`, the quantity, `) - PKR ` and the formatted line total; `MessageLines` places one per cart line |
| Checkout.OrderDetails | App.tsx:74-76 | defines the summary lines, one per cart line in cart order; `MessageLines` states it |
| Checkout.TotalLine | App.tsx:78 | defines the total line: `*Total: PKR `, the formatted order total and `*` |
| Checkout.Message | App.tsx:78 | defines the message: the greeting, a blank line, the summary lines joined by line feeds, a blank line and the total line; `MessageJoin` and `MessageLines` state its layout |
| Checkout.MessageJoin | App.tsx:74-78 | the message is the greeting, a blank line, the summary lines, a blank line and the total line, joined by line feeds |
| Checkout.MessageLines | App.tsx:74-78 | the message's lines are the greeting, a blank line, exactly one summary line per cart line in cart order, a blank line and the total line |
| CartModal.TotalPrice | components/CartModal.tsx:23-25 | the modal total is the sum of price × quantity over the lines, and 0 for an empty cart |
| CartModal.DecreaseRequest | components/CartModal.tsx:55 | defines the minus button's request: the line's id and its quantity minus one; `DecreaseRemoves` and `DecreaseLowers` state its effect |
| CartModal.IncreaseRequest | components/CartModal.tsx:59 | defines the plus button's request: the line's id and its quantity plus one; `IncreaseRaises` states its effect |
| CartModal.Apply | App.tsx:124 | defines the modal's `onUpdateQuantity` prop (declared at components/CartModal.tsx:10) as the App's `handleUpdateQuantity` applied to the request |
| CartModal.CheckoutDisabled | components/CartModal.tsx:83 | defines the `disabled` attribute: the cart has no lines; `DisabledIffEmpty` states it |
| CartModal.TotalsAgree | components/CartModal.tsx:24 | the modal total equals the checkout total of App.tsx:72 |
| CartModal.AddTotalPresent | App.tsx:41-45 | adding a product already on line `k` raises the total by that line's stored unit price |
| CartModal.AddTotalAbsent | App.tsx:47 | adding a product not in the cart raises the total by its price |
| CartModal.AddTotal | App.tsx:39-49 | an add raises the total by the unit price of the line it bumps or appends |
| CartModal.RemoveTotal | App.tsx:62-64 | removing line `k` lowers the total by that line's total |
| CartModal.UpdateTotal | App.tsx:56-58 | writing `q` onto line `k` moves the total by its price times the change in quantity |
| CartModal.DecreaseRemoves | components/CartModal.tsx:55 | the minus button on a line of quantity 1 drops exactly that line, as the remove handler does (App.tsx:53-54) |
| CartModal.DecreaseLowers | components/CartModal.tsx:55 | the minus button on a line above 1 lowers only that line by one, and the item count by one |
| CartModal.IncreaseRaises | components/CartModal.tsx:59 | the plus button raises only that line by one, the item count by one and the total by the line's price |
| CartModal.DisabledIffEmpty | components/CartModal.tsx:83 | checkout is disabled exactly when the cart is empty, which is exactly when checkout would only alert |
| Storefront.App.constructor | App.tsx:10-11 | the app starts with no products and an empty cart |
| Storefront.App.LoadCatalog | App.tsx:14-37 | reports whether the parse succeeded; a successful parse stores its records as the products, a failed one leaves them; the cart is untouched |
| Storefront.App.HandleAddToCart | App.tsx:39-49 | the cart becomes the add handler's result, stays well-formed, and its item count grows by one; the products are untouched |
| Storefront.App.HandleUpdateQuantity | App.tsx:51-60 | the cart becomes the update handler's result and stays well-formed; a non-positive quantity leaves no line with the id; an absent id changes nothing |
| Storefront.App.HandleCheckout | App.tsx:66-83 | checkout reads the current cart: the alert exactly when it is empty, otherwise the link built from the number and the encoded message of that cart |
| Storefront.App.HandleRemoveItem | App.tsx:62-64 | the cart becomes the remove handler's result, stays well-formed and holds no line with the id |

## Left out

- Rendering is not modelled: the JSX, the CSS classes, the open/closed state of the modal, `handleShopNowClick`, and the React hooks that schedule the updates (`useState`, `useEffect`, `useMemo`, `useCallback`).
- components/Header.tsx and components/ProductCard.tsx are presentational and are not part of this model.
- The constants module is not part of this model: the catalog text and the WhatsApp number are parameters.
- `alert` and `window.open` are not performed. Checkout returns the `Outcome` that says which one happens and with what text.
- `encodeURIComponent` and `toFixed(2)` are function parameters of checkout, left abstract.
- Prices are integers, so the floating-point sums of the source, with their rounding, are not modelled.
- Cart.AddCount: JavaScript numbers are doubles. Above 2^53, `item.quantity + 1` (App.tsx:44, components/CartModal.tsx:59) no longer changes the value, so "exactly one more" holds only for the unbounded integers of the model.
- Cart.Incremented: the same bound applies; above 2^53 the bumped quantity equals the old one in the source.
- CartModal.IncreaseRaises: the same bound applies to the plus button's `quantity + 1`.
- JsText.DecimalString: from 10^21 on, `${item.quantity}` (App.tsx:75) is written in exponent form; the model always writes plain digits.
- Storefront.App.LoadCatalog: the TypeError a short line throws escapes the mount effect in the source; here it is reported as `ok == false`, with the products left as they were. What React then does with an error thrown from an effect is not modelled.
- JsText.ParseNumber: only the integer part of `parseFloat` is modelled. A fraction, an exponent or `Infinity` is not read, so `"1.5"` gives 1 where `parseFloat` gives 1.5. Text without a leading digit gives `NotANumber`, which stands for `NaN`.
- Catalog.ToProduct: a product id is an integer, so a `NaN` id is not modelled. Such an id is never equal to itself in the source, so re-adding that product would append a new line each time.
- JsText.LowerChar: `toLowerCase` is modelled on ASCII capitals only; other scripts' case mappings are not modelled.
- JsText.IsSpace: `trim` removes the ECMA-262 white space and line terminator characters, as listed in the predicate. Unicode categories are not consulted beyond that list.
- Catalog.BuildRecord: the record is a map. The key order of the JavaScript object is not modelled.
- Storefront.App: each handler assigns the new cart at once. React's batching of functional updates is not modelled.
