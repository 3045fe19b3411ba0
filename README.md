# Supermarket inventory engine — Dafny model

A model of the in-memory inventory engine of the console Supermarket Management
System (`main.py`): the `InventoryManager` that keeps an ordered catalog of
products and a transaction log. The model covers adding a product, looking one
up by identifier, overwriting its quantity (restock), selling from stock, the
save/load mapping between products and stored records, the data of the
per-category quantity chart, and the menu dispatch `Action(int(choice))`.

Modules, one per component of `main.py`:

- `Catalog` (`catalog.dfy`): the `Product` record and `find_product_by_id`.
- `Engine` (`engine.dfy`): add, update, sell and log as pure transitions on
  (catalog, log). Lemmas cover single calls and whole sequences of calls.
- `Storage` (`storage.dfy`): `to_dict`, `Product(**data)`, and save/load over
  the list of records.
- `Manager` (`manager.dfy`): the class `InventoryManager`, whose methods change
  the fields `products` and `log` in place. `AddProduct`,
  `UpdateProductQuantity` and `SellProduct` are proved to perform exactly the
  matching `Engine` transition; `LoadProducts` and `SaveProducts` are tied to
  the `Storage` functions; `LogTransaction` states the entry it appends.
- `Chart` (`chart.dfy`): category set, grouping, bars and colour assignment.
- `Menu` (`menu.dfy`): Python's `int()` on menu text, `Action(n)`, and the
  `switch` table of `handle_choice`.
- `Wrappers` (`wrappers.dfy`): `Option`.

Modelling choices:

- Price is a whole number of cents, not a float.
- The timestamp is a string parameter.
- `transactions.log` is the `log` field: one `LogEntry` per sale holding the
  time, the quantity, and the product's name and price. The file is opened for
  appending and never cleared. So the constructor takes the entries that earlier
  runs left in it (`priorLog`), and the new sales come after them.
- `products.json` is a sequence of records. `LoadProducts` receives `None` when
  the file does not exist, and `SaveProducts` returns the records it writes.
- Console input is replaced by parameters that are already parsed. As in the
  program, nothing checks the sign of a quantity or a price. So stock stays
  non-negative only when the inputs are non-negative. Identifiers are unique
  only for catalogs built by adds starting from empty.
- Later revisions of this system describe checks that reject negative
  quantities. `main.py` reports an unknown id (and changes nothing) but never
  rejects a negative quantity, and the model follows `main.py`.

## Model

| member | source | states |
|---|---|---|
| Catalog.FindIndex | main.py:98-99 | the result is the index of the first product with the id, and no earlier product has it; None exactly when no product has the id |
| Catalog.FindProductById | main.py:98-99 | returns the first product whose id matches, or None exactly when none matches |
| Catalog.FindIsOnlyMatch | main.py:98-99 | when ids are distinct, the product found is the unique product with that id |
| Engine.AddProduct | main.py:64-72 | the catalog grows by exactly one product with id equal to the old length plus one, keeping the old products as a prefix; the log is unchanged (AddProductAppends also pins the new product's fields) |
| Engine.UpdateQuantity | main.py:74-82 | never reports insufficient stock; "not found" changes nothing; the catalog keeps its length and the log is unchanged (UpdateQuantityEffect states which product changes) |
| Engine.Sell | main.py:84-96 | a refused sell changes nothing; the catalog keeps its length; the log only grows, by one entry exactly when the sale succeeds (SellSucceeds and SellRefused state the rest) |
| Engine.AddProductAppends | main.py:64-72 | add appends exactly one product, with id equal to the old length plus one and the given fields; earlier products and the log are unchanged |
| Engine.UpdateQuantityEffect | main.py:74-82 | reports success iff some product has the id; then only the first match's quantity becomes the new value and every other product is unchanged; otherwise nothing changes; the log never changes |
| Engine.SellSucceeds | main.py:88-92 | with the first match holding at least the requested quantity, its quantity drops by exactly that amount, no other product changes, and one log entry with the quantity and the product's name and price is appended |
| Engine.SellRefused | main.py:87-96 | an unsuccessful sell leaves catalog and log unchanged; "not found" iff no product has the id; "insufficient" iff the first match holds less than requested |
| Engine.SellLeavesStockNonNegative | main.py:89-90 | after a successful sell the sold product's quantity is non-negative, for any requested quantity |
| Engine.SellNegativeQuantityRestocks | main.py:84-90 | a negative request passes the guard, increases the stock and logs a negative sale |
| Engine.RunKeepsIdsAreIndices | main.py:69-71 | any sequence of operations keeps the k-th product's id equal to k+1, and the catalog grows by one per add |
| Engine.RunFromEmptyNumbersIds | main.py:69-71 | starting from an empty catalog, any sequence of operations yields ids 1..n, one per add, strictly increasing and pairwise distinct |
| Engine.RunOfAdds | main.py:64-71 | a sequence of adds keeps the old catalog as a prefix and appends the given records in call order, numbered on from the old length |
| Engine.ApplyKeepsStockNonNegative | main.py:74-96 | an add or update with a non-negative quantity, or any sell, keeps every quantity non-negative |
| Engine.RunKeepsStockNonNegative | main.py:74-96 | any sequence of adds and updates with non-negative quantities, and of sells with any quantities, keeps every quantity non-negative |
| Engine.RunExtendsLog | main.py:101-104 | the log is append-only: the log before any sequence of operations is a prefix of the log after it |
| Engine.AddAfterLoadCanDuplicateIds | main.py:69 | after a load of a record with id 2, one add creates a second product with id 2 |
| Engine.MilkScenario | main.py:64-96 | add Milk to an empty catalog, sell 4 of 10, then oversell and sell an unknown id: ids, quantities, log and outcomes come out as the program prints them |
| Storage.ToDict | main.py:30-37 | a saved record has exactly the five keyword names of the Product constructor |
| Storage.FromDict | main.py:23-28 | `Product(**data)` succeeds iff the record has exactly those five keys with values of the field's kind |
| Storage.FromToDict | main.py:30-37 | loading a record produced by to_dict gives back the same product |
| Storage.ToFromDict | main.py:47 | a record that loads is exactly the record its product saves to |
| Storage.SaveData | main.py:54 | the saved list has one record per product, in order, each the product's to_dict |
| Storage.LoadData | main.py:47 | loading succeeds iff every record is well formed, and then yields one product per record, in order |
| Storage.LoadSaveRoundTrip | main.py:43-55 | load after save gives back the same products in the same order |
| Storage.SaveLoadRoundTrip | main.py:43-55 | save after a successful load gives back the same records |
| Manager.InventoryManager.constructor | main.py:39-40 | the manager starts with an empty catalog, and its log holds, unchanged, what earlier runs wrote to transactions.log, which main.py:103 opens for appending |
| Manager.InventoryManager.LoadProducts | main.py:43-50 | a missing file leaves the catalog unchanged; well-formed records replace it; a bad record leaves it unchanged and is reported |
| Manager.InventoryManager.SaveProducts | main.py:52-56 | returns one to_dict record per product, in order, and loading them restores the catalog |
| Manager.InventoryManager.AddProduct | main.py:64-72 | the new state is the add transition of the old state |
| Manager.InventoryManager.UpdateProductQuantity | main.py:74-82 | outcome and new state are those of the update transition |
| Manager.InventoryManager.SellProduct | main.py:84-96 | outcome and new state are those of the sell transition |
| Manager.InventoryManager.LogTransaction | main.py:101-104 | appends exactly one entry with the timestamp, the quantity and the product's name and price |
| Chart.Categories | main.py:107 | a category is in the set iff some product has it |
| Chart.InCategory | main.py:112-113 | a product is in the group iff it is in the catalog and has the category |
| Chart.InCategoryConcat | main.py:112-113 | grouping keeps catalog order, because it distributes over concatenation |
| Chart.CategoryHasProducts | main.py:107-113 | a category is charted iff its group is non-empty |
| Chart.GroupsPartition | main.py:107-113 | every product lies in the group of its own category and in no other |
| Chart.BarsFor | main.py:112-115 | names and quantities have the group's length, and position k of both holds the name and the quantity of the group's k-th product |
| Chart.ZipMap | main.py:109 | a key receives a colour iff it is among the first min(keys, values) keys |
| Chart.ZipMapAt | main.py:109 | with distinct keys, the k-th key is paired with the k-th colour |
| Chart.ColorsAsWritten | main.py:108-109 | as written: a category is coloured iff it is among the first seven visited |
| Chart.Colors | main.py:108-109 | corrected: every visited category is coloured, and nothing else is |
| Chart.EighthCategoryHasNoColor | main.py:108-115 | as written: with eight distinct categories, the eighth has no colour |
| Chart.EveryCategoryHasColor | main.py:108-115 | corrected: every category receives a colour |
| Chart.ColorsAgreeWhenFew | main.py:109 | with at most seven categories, the corrected colours equal the program's |
| Chart.Panels | main.py:111-121 | one chart per category in visiting order; chart k shows the bars of category k (BarsFor) in that category's colour from the corrected map |
| Chart.PanelsHaveBars | main.py:107-113 | when the visiting order lists categories of the catalog, every chart has at least one bar |
| Menu.ParseInt | main.py:144 | text that int() accepts, once trimmed of whitespace, starts with a digit or a sign and ends with a digit, and reads negative only with a minus sign |
| Menu.ParseDecimal | main.py:144 | int() reads back any integer written in decimal |
| Menu.ParseIgnoresSurroundingSpace | main.py:144 | whitespace before and after the text does not change what int() reads |
| Menu.DigitsValueSkipsZeros | main.py:144 | zeros in front of digits do not change their value |
| Menu.ParseZeroPadded | main.py:144 | int() reads leading zeros followed by the digits of n as n |
| Menu.ParsePlusZeroPadded | main.py:144 | int() reads a plus sign, leading zeros and the digits of n as n |
| Menu.ParseMinusZeroPadded | main.py:144 | int() reads a minus sign, leading zeros and the digits of n as -n |
| Menu.ParseRejectsStrayCharacter | main.py:144 | after trimming, any character that is not a digit or an underscore, and is not a sign in first place, makes int() fail |
| Menu.ParseRejectsDoubleUnderscore | main.py:144 | two underscores in a row make int() fail |
| Menu.ParseUnderscoreExample | main.py:144 | int() skips a single underscore between digits: "1_0" is 10 |
| Menu.ParseSignAndZeroExamples | main.py:144 | int() reads "+3" and "03" as 3 |
| Menu.ParseRefusalExamples | main.py:144 | int() refuses "3 3", "1a2" and "1__0" |
| Menu.ActionOf | main.py:8-16 | `Action(n)` exists iff 1 <= n <= 8, and then that member's number is n |
| Menu.ActionOfCode | main.py:8-16 | every action is recovered from its number |
| Menu.SwitchPerforms | main.py:145-154 | the `switch` table holds every action, each bound to its own operation |
| Menu.Dispatch | main.py:144-157 | never yields the invalid-choice default; it runs an action only when the parsed number is that action's code |
| Menu.HandleChoice | main.py:142-157 | for any typed text, never yields the invalid-choice default; it runs an action only when int() reads that action's code |
| Menu.DispatchSelects | main.py:142-157 | dispatch never reaches the invalid-choice default; it runs action a iff the input reads as a's number; every other input is "Invalid input" |
| Menu.TypedNumberSelects | main.py:143-155 | typing an action's number, with any whitespace around it, runs that action |

## Findings

| source | as written | input that shows it | evidently intended | confidence | as-written member | corrected member |
|---|---|---|---|---|---|---|
| main.py:108-115 | `dict(zip(categories, colors[:len(categories)]))` gives colours to at most seven categories; `category_colors[category]` then raises KeyError, which `handle_choice` does not catch | a catalog with eight distinct categories, then menu option 7 | every category gets a colour, reusing the palette | high, not executed | Chart.EighthCategoryHasNoColor | Chart.EveryCategoryHasColor |

`Chart.ColorsAsWritten` models the program's colour map. `Chart.Colors` is the
corrected map and cycles through the palette; `Chart.Panels` uses it.
`Chart.Panels` takes the visiting order as given and does not itself require
it to be the category set; `Chart.PanelsHaveBars` adds that assumption.

## Left out

- Console input: `input()`, `get_int_input`, `get_float_input` and the menu loop of `main`, including `exit()`. These are interaction; operations take already-parsed arguments instead.
- File and JSON I/O: opening files, JSON text encoding and decoding, and errors other than a missing products file.
- The transactions file and `print_transaction_log`. The model keeps the log as a sequence; `ViewTransactionLog` is dispatched but not displayed.
- `datetime.now()`: the program reads the clock, and the model takes the timestamp as a parameter.
- Float prices and the text of a log line, including the amount `quantity * price` and its formatting.
- `display_products` (tabulate), coloured terminal output, and matplotlib plotting. These are rendering through foreign libraries.
- The iteration order of the category set. `Chart.Panels` takes that order as a parameter, since the program does not fix it.
- Product objects and aliasing. `find_product_by_id` returns the object itself and the program mutates it; the model updates the product at its index. These agree because each product object occurs in the list once.
- Manager.InventoryManager.LoadProducts: the program lets the TypeError from a bad record escape and stop; the model reports `Malformed` and keeps the catalog unchanged. A JSON document that is not a list of objects is not modelled.
- Storage.FromDict: refuses values of the wrong kind (text for a number, say), which Python's constructor would store unchecked.
- Menu.ParseInt: reads ASCII text only, skipping tab, line feed, vertical tab, form feed, carriage return and space around the number. Non-ASCII whitespace and digits, and the interpreter's limit on the number of digits, are not modelled.
- Manager.InventoryManager.SellProduct: a failed write of the log line, after the quantity has already been decremented, is not modelled, because I/O failures are left out.
- Sorting the catalog, a relational store and sorted ledger queries belong to other revisions of the system and are not part of this model.
