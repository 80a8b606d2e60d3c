# Inventory ledger of the stock-control page

The page (`index.tsx`) keeps an inventory in four module-level collections:

- `mockStockItems`: each item has a name, a quantity, a location, a category and a `lastUpdated` date;
- `mockLocations`;
- `mockEntradas`: inflow records;
- `mockSaidas`: outflow records.

Its form and button handlers change these collections in place. The handlers cover:

- recording, editing and deleting an entrada or a saída;
- editing a stock item, where a rename is copied into the records;
- adding, renaming and deleting a storage location, where a rename is copied into the items.

The dashboard reads the same data through two pure views: the filtered stock list and the period summary. The date filter offers a list of months derived from the items.

The project models this ledger in Dafny, in two layers.

- **Inventory** (`inventory.dfy`) writes every handler as a pure transition on a `State` value. The result is `Ok(newState)` or `Err(why)`. An `Err` stands for an `alert`, a declined `confirm`, or a silent `return`, and `After` then leaves the state as it was.
- **Store** (`store.dfy`) holds the class `Ledger`. Its four fields are the page's collections, and its methods change them in place with the same statements as the source:
  - an item updated at its index;
  - `push` followed by `sort`;
  - `filter` reassignments;
  - the `forEach` cascades, written as `while` loops.

  Each method is proved to leave exactly the state the matching `Inventory` transition gives. It also returns the error the transition reports. It keeps the invariant `Consistent()`: record ids are unique, recorded quantities are at least 1, and no two items or locations have names that differ only in letter case.

The other modules are as follows.

- **LedgerLaws** (`ledger_laws.dfy`) states the entrada and saída handlers' effects and their guards. It also states the conservation of `Balance`, which is total stock minus the net recorded flow, and of `ItemBalance`, the same for one product name, and the round trips from posting a record and then deleting it. It includes two concrete cases that show quirks of the source:
  - a record stores the name as typed, so deleting an entrada posted under a differently-cased name does not take the stock back;
  - entrada deletes have no stock guard.
- **CatalogLaws** (`catalog_laws.dfy`) does the same for item edits and the location handlers. It proves that every handler keeps names distinct up to letter case.
- **Query** (`query.dfy`) holds the dashboard filter, the period summary and the month options.
- **Text** (`text.dfy`) models the string built-ins the handlers use.
- **Seqs** (`seqs.dfy`) holds generic sequence facts: filter, insertion sort, sums.

## Model

| member | source | states |
|---|---|---|
| Text.Trim | index.tsx:587-588 | the trimmed name has no white space at either end |
| Text.TrimIsInfix | index.tsx:827 | `trim` removes only white space and only from the two ends; it yields the empty string exactly when the input is all white space |
| Text.LowerChar | index.tsx:264-265 | a lowered character is never a capital, and a non-capital is left alone |
| Text.Fold | index.tsx:264-265 | `toLowerCase` keeps the length and lowers each character in place |
| Text.FoldIdempotent | index.tsx:598 | lowering twice is lowering once, so comparisons of lowered names are stable |
| Text.Prefix | index.tsx:517 | `substring(0, n)` is a prefix of length `min(n, length)` |
| Text.LexLeReflexive | index.tsx:845 | the sort order relates every name to itself |
| Text.LexLeTotal | index.tsx:845 | any two names are ordered one way or the other |
| Text.LexLeAntisymmetric | index.tsx:845 | names ordered both ways are equal |
| Text.LexLeTransitive | index.tsx:845 | the sort order is transitive |
| Text.Includes | index.tsx:265 | `includes`: some window of the text equals the term; what it means for the list is stated by `Query.FilteredItemsSound` |
| Text.StartsWith | index.tsx:274 | `startsWith`: the text begins with the prefix; its use is stated by `Query.FilteredItemsSound` |
| Inventory.FindByFold | index.tsx:838 | the first item whose name equals the given one ignoring case, or none exactly when no item matches |
| Inventory.FindByName | index.tsx:603 | the first item whose name equals the given one exactly, or none exactly when no item has it |
| Inventory.FindEntrada | index.tsx:774 | the first entrada with that id, or none exactly when no entrada has it |
| Inventory.FindSaida | index.tsx:963 | the first saída with that id, or none exactly when no saída has it |
| Inventory.SortItems | index.tsx:845 | sorting the items by name; `Seqs.SortByCorrect` proves the result sorted and a permutation, as used by `LedgerLaws.PostEntradaNewItem` |
| Inventory.SortLocations | index.tsx:1152 | sorting the locations; `Seqs.SortByCorrect` proves the result sorted and a permutation, as used by `CatalogLaws.AddLocationEffect` |
| Inventory.Receive | index.tsx:838-846 | the stock half of an entrada; its contract is stated by `LedgerLaws.PostEntradaToExisting` (matched item) and `LedgerLaws.PostEntradaNewItem` (new item) |
| Inventory.PostEntrada | index.tsx:826-850 | the entrada form handler; contract in `LedgerLaws.PostEntradaEffect`, `PostEntradaToExisting`, `PostEntradaNewItem`, `PostEntradaKeepsBalance`, `PostEntradaKeepsItemBalance` and `PostEntradaKeepsValid` |
| Inventory.EditEntrada | index.tsx:788-802 | the entrada edit handler; contract in `LedgerLaws.EditEntradaEffect`, `EditEntradaUnknown`, `EditEntradaBalance`, `EditEntradaItemBalance` and `EditEntradaKeepsValid` |
| Inventory.DeleteEntrada | index.tsx:937-946 | the entrada delete button; contract in `LedgerLaws.DeleteEntradaEffect`, `DeleteEntradaRemovesOnlyThatId`, `DeleteDeclined`, `DeleteEntradaBalance`, `DeleteEntradaItemBalance` and `DeleteEntradaKeepsValid` |
| Inventory.PostSaida | index.tsx:1020-1038 | the saída form handler; contract in `LedgerLaws.PostSaidaEffect`, `PostSaidaKeepsBalance`, `PostSaidaKeepsItemBalance` and `PostSaidaKeepsValid` |
| Inventory.EditSaida | index.tsx:978-998 | the saída edit handler; contract in `LedgerLaws.EditSaidaEffect`, `EditSaidaDecreaseAccepted`, `EditSaidaKeepsBalance`, `EditSaidaKeepsItemBalance` and `EditSaidaKeepsValid` |
| Inventory.DeleteSaida | index.tsx:1117-1126 | the saída delete button; contract in `LedgerLaws.DeleteSaidaEffect`, `DeleteSaidaRemovesOnlyThatId`, `DeleteSaidaBalance`, `DeleteSaidaItemBalance` and `DeleteSaidaKeepsValid` |
| Inventory.EditItem | index.tsx:584-618 | the stock-card edit handler; contract in `CatalogLaws.EditItemOutcome`, `EditItemEffect`, `EditItemLeavesNoStaleName`, `EditItemKeepsBalance`, `EditItemKeepsOtherItemBalances`, `EditItemMovesItemBalance`, `EditItemKeepsValid` and `EditItemKeepsCatalogued` |
| Inventory.AddLocation | index.tsx:1146-1158 | the add-location handler; contract in `CatalogLaws.AddLocationOutcome`, `AddLocationEffect` and `AddLocationKeepsCatalogued` |
| Inventory.RenameLocation | index.tsx:1193-1218 | the location rename handler; contract in `CatalogLaws.RenameLocationOutcome`, `RenameLocationEffect`, `RenameLocationLeavesNoStaleLocation`, `RenameLocationKeepsBalance`, `RenameLocationKeepsItemBalance` and `RenameLocationKeepsCatalogued` |
| Inventory.DeleteLocation | index.tsx:1240-1250 | the location delete button; contract in `CatalogLaws.DeleteLocationOutcome`, `DeleteLocationEffect` and `DeleteLocationKeepsCatalogued` |
| Inventory.AdjustExact | index.tsx:939-942 | only the exactly-named item changes, by `delta` in quantity, and total stock moves by `delta` exactly when such an item exists |
| Inventory.RenameEntradas | index.tsx:612-614 | every entrada under the old name takes the new name, nothing else about any entrada changes, and the entrada total is kept |
| Inventory.RenameSaidas | index.tsx:615-617 | the same for the saídas |
| Inventory.Relocate | index.tsx:1210-1214 | every item at the old location moves to the new one, and nothing else about any item changes, so total stock is kept |
| Inventory.ReplaceLocation | index.tsx:1207 | the old name is replaced by the new one wherever it occurs, and every other location is kept in place |
| LedgerLaws.PostEntradaEffect | index.tsx:826-850 | an entrada is refused, with `MissingField`, exactly when the trimmed name is blank; otherwise exactly one record under the trimmed name is appended and total stock rises by the quantity |
| LedgerLaws.PostEntradaToExisting | index.tsx:838-841 | a name matching an item ignoring case raises that item's quantity and overwrites its location, and no other item changes |
| LedgerLaws.PostEntradaNewItem | index.tsx:842-846 | otherwise one new item with today's date joins the list, which ends up sorted by name and is the old list plus that item |
| LedgerLaws.EditEntradaEffect | index.tsx:788-802 | the record's quantity and date always change; the exactly-named item, if any, moves by `newQuantity - oldQuantity`, with no negative-stock guard |
| LedgerLaws.EditEntradaUnknown | index.tsx:774-775 | an id that no entrada has is reported and changes nothing |
| LedgerLaws.DeleteEntradaEffect | index.tsx:937-946 | a confirmed delete removes that record, takes its quantity from the exactly-named item without a guard, and leaves the other histories alone |
| LedgerLaws.DeleteEntradaRemovesOnlyThatId | index.tsx:943 | the surviving entradas are an order-preserving subsequence holding every record with another id and none with that id |
| LedgerLaws.DeleteDeclined | index.tsx:938 | a declined confirmation deletes nothing |
| LedgerLaws.PostSaidaEffect | index.tsx:1020-1038 | a saída is recorded exactly when an item matches ignoring case and holds at least the request; the item then drops by exactly the request, stays non-negative, and one record is appended; an unknown item and short stock are told apart |
| LedgerLaws.EditSaidaEffect | index.tsx:978-998 | an edit applies exactly when the exactly-named item exists and holds at least `newQuantity - oldQuantity`; a missing item is `ItemNotFound` (skipped silently) and short stock is exactly `InsufficientStock` (the negative-stock alert); an accepted edit leaves the item non-negative and gives the record its three new fields, and otherwise nothing changes |
| LedgerLaws.EditSaidaDecreaseAccepted | index.tsx:984-985 | lowering a saída is always accepted while its item is listed with non-negative stock |
| LedgerLaws.DeleteSaidaEffect | index.tsx:1117-1126 | a confirmed delete removes that record and gives its quantity back to the exactly-named item |
| LedgerLaws.DeleteSaidaRemovesOnlyThatId | index.tsx:1123 | the surviving saídas are an order-preserving subsequence holding every record with another id and none with that id |
| LedgerLaws.PostEntradaKeepsBalance | index.tsx:838-848 | posting an entrada keeps stock minus net recorded flow |
| LedgerLaws.PostSaidaKeepsBalance | index.tsx:1026-1031 | posting a saída keeps the balance |
| LedgerLaws.EditEntradaBalance | index.tsx:792-798 | an entrada edit keeps the balance when the record's name resolves exactly, and otherwise shifts it by the whole difference |
| LedgerLaws.DeleteEntradaBalance | index.tsx:939-943 | a delete keeps the balance when the name resolves exactly, and otherwise shifts it by the record's quantity |
| LedgerLaws.EditSaidaKeepsBalance | index.tsx:983-997 | an accepted saída edit keeps the balance |
| LedgerLaws.DeleteSaidaBalance | index.tsx:1119-1123 | a saída delete keeps the balance when the name resolves exactly, and otherwise shifts it by the record's quantity |
| LedgerLaws.ItemStockIsQuantity | index.tsx:939 | when no two items share a name ignoring case, the stock held under a name is the quantity of the item with exactly that name, or 0 if there is none |
| LedgerLaws.PostEntradaKeepsItemBalance | index.tsx:838-848 | an entrada whose typed name is the matched item's own name (or names a new item) keeps the balance of every product: its stock minus the entradas under its name plus the saídas under its name |
| LedgerLaws.PostSaidaKeepsItemBalance | index.tsx:1026-1031 | a saída whose typed name is the matched item's own name keeps the balance of every product |
| LedgerLaws.EditEntradaItemBalance | index.tsx:792-798 | an entrada edit keeps the balance of every product, except the record's own name when no item has it exactly, which shifts by the whole difference |
| LedgerLaws.DeleteEntradaItemBalance | index.tsx:939-943 | an entrada delete keeps the balance of every product, except the record's own name when no item has it exactly, which rises by the record's quantity |
| LedgerLaws.EditSaidaKeepsItemBalance | index.tsx:983-997 | an accepted saída edit keeps the balance of every product |
| LedgerLaws.DeleteSaidaItemBalance | index.tsx:1119-1123 | a saída delete keeps the balance of every product, except the record's own name when no item has it exactly, which drops by the record's quantity |
| LedgerLaws.DropFreshEntrada | index.tsx:943 | a record just appended under a fresh id is the one found for it, and filtering that id out gives the earlier history back |
| LedgerLaws.DropFreshSaida | index.tsx:1123 | the same for saídas |
| LedgerLaws.DeleteEntradaAt | index.tsx:937-946 | a confirmed delete of a listed entrada is accepted, filters its id out, takes the found record's quantity off the exactly-named item, and leaves saídas and locations alone |
| LedgerLaws.DeleteLastEntrada | index.tsx:939-943 | deleting the last-appended entrada restores the earlier history and takes its quantity off the exactly-named item |
| LedgerLaws.DeleteLastSaida | index.tsx:1119-1123 | deleting the last-appended saída restores the earlier history and gives its quantity back |
| LedgerLaws.PostEntradaNamesItem | index.tsx:838-848 | after an entrada under a name that is the item's own (or a new one), an item of exactly that name exists |
| LedgerLaws.PostThenDeleteEntradaToExisting | index.tsx:838-841 | after posting an entrada to an item matched by its own name and deleting it, the item has its old quantity back and only its location is the form's |
| LedgerLaws.EmptyAddedItem | index.tsx:939-942 | taking an added item's quantity back out of a list that holds it and only differently-named old items leaves the old items plus that item at quantity 0 |
| LedgerLaws.DeleteNewEntrada | index.tsx:939-943 | deleting the entrada that created an item leaves that item at quantity 0 |
| LedgerLaws.PostThenDeleteEntradaNewItem | index.tsx:842-846 | after posting an entrada that creates an item and deleting it, the items are the old ones plus the new item at quantity 0 |
| LedgerLaws.PostThenDeleteEntrada | index.tsx:838-848 | posting an entrada and deleting it restores the entradas, the saídas, the locations and the total stock, when the typed name is the item's own name; the matched item is back as it was except for the form's location, and a created item stays at quantity 0 |
| LedgerLaws.PostThenDeleteSaida | index.tsx:1026-1037 | posting a saída and deleting it restores the whole state, when the typed name is the item's own name |
| LedgerLaws.CaseMismatchedEntradaIsNotReversed | index.tsx:848 | an entrada typed as "produto x" raises "Produto X" from 120 to 130, and deleting it leaves 130: the exact lookup misses |
| LedgerLaws.CaseMismatchedEntradaShiftsItemBalance | index.tsx:838-848 | the same entrada raises the balance of "Produto X" by 10 and lowers that of "produto x" by 10 |
| LedgerLaws.DeleteEntradaCanGoNegative | index.tsx:939-942 | a valid state in which deleting an entrada drives an item to -45 |
| LedgerLaws.AppendEntradaValid | index.tsx:848 | appending a record with a fresh id and a quantity of at least 1 keeps the entrada invariant |
| LedgerLaws.AppendSaidaValid | index.tsx:1030 | the same for saídas |
| LedgerLaws.RemoveEntradaValid | index.tsx:943 | removing one entrada keeps the invariant |
| LedgerLaws.RemoveSaidaValid | index.tsx:1123 | removing one saída keeps the invariant |
| LedgerLaws.PostEntradaKeepsValid | index.tsx:848 | an entrada with a fresh id keeps ids unique and quantities at least 1 |
| LedgerLaws.EditEntradaKeepsValid | index.tsx:797-798 | an entrada edit keeps the record invariant |
| LedgerLaws.DeleteEntradaKeepsValid | index.tsx:943 | an entrada delete keeps the record invariant |
| LedgerLaws.PostSaidaKeepsValid | index.tsx:1030 | a saída with a fresh id keeps the record invariant |
| LedgerLaws.EditSaidaKeepsValid | index.tsx:988-990 | a saída edit keeps the record invariant |
| LedgerLaws.DeleteSaidaKeepsValid | index.tsx:1123 | a saída delete keeps the record invariant |
| CatalogLaws.EditItemOutcome | index.tsx:593-601 | an item edit is refused exactly for a blank field, or for a new name that differs from the old one in more than case and that some item already has ignoring case; otherwise it is accepted |
| CatalogLaws.EditItemEffect | index.tsx:603-618 | the exactly-named item gets the four new fields and keeps its quantity; nothing else about the items or locations changes; every record under the old name takes the new name and no other record changes |
| CatalogLaws.EditItemLeavesNoStaleName | index.tsx:611-618 | after a rename no entrada or saída carries the old name |
| CatalogLaws.EditItemKeepsBalance | index.tsx:603-618 | an item edit moves neither total stock nor the balance |
| CatalogLaws.KeptShares | index.tsx:603-618 | a change that renames the item and the records from the old name to the new one keeps the balance of any third name |
| CatalogLaws.EditItemKeepsOtherItemBalances | index.tsx:603-618 | an item edit keeps the balance of every product other than the old and the new name, and of every product when the name stays |
| CatalogLaws.RenamedItemShares | index.tsx:603-609 | renaming the one item of the old name moves its stock to the new name and leaves none under the old one |
| CatalogLaws.RenamedEntradaShares | index.tsx:612-614 | renaming the entradas moves their quantities from the old name to the new one |
| CatalogLaws.RenamedSaidaShares | index.tsx:615-617 | renaming the saídas moves their quantities from the old name to the new one |
| CatalogLaws.EditItemMovesItemBalance | index.tsx:603-618 | when names are distinct ignoring case, a rename adds the old name's balance to the new name's and leaves 0 under the old name |
| CatalogLaws.EditItemKeepsValid | index.tsx:611-618 | an item edit keeps the record invariant |
| CatalogLaws.EditItemKeepsCatalogued | index.tsx:598-609 | an item edit keeps item names distinct ignoring case |
| CatalogLaws.SameNamesKeepCatalogued | index.tsx:939-942 | a change that keeps every item's name and the locations keeps names distinct ignoring case |
| CatalogLaws.AdjustExactKeepsNames | index.tsx:939-942 | an exact-name quantity change keeps every item's name |
| CatalogLaws.PostEntradaKeepsCatalogued | index.tsx:838-846 | an entrada adds an item only under a name no item has ignoring case |
| CatalogLaws.EditEntradaKeepsCatalogued | index.tsx:792-798 | an entrada edit keeps names distinct ignoring case |
| CatalogLaws.DeleteEntradaKeepsCatalogued | index.tsx:939-943 | an entrada delete keeps names distinct ignoring case |
| CatalogLaws.PostSaidaKeepsCatalogued | index.tsx:1026-1031 | a saída keeps names distinct ignoring case |
| CatalogLaws.EditSaidaKeepsCatalogued | index.tsx:983-997 | a saída edit keeps names distinct ignoring case |
| CatalogLaws.DeleteSaidaKeepsCatalogued | index.tsx:1119-1123 | a saída delete keeps names distinct ignoring case |
| CatalogLaws.AddLocationOutcome | index.tsx:1149-1156 | a location is added exactly when its trimmed name is not blank and no location has it ignoring case |
| CatalogLaws.AddLocationEffect | index.tsx:1151-1152 | an added location joins the list, which ends up sorted and is the old list plus that name, and nothing else changes |
| CatalogLaws.AddLocationKeepsCatalogued | index.tsx:1150-1152 | adding never creates a duplicate ignoring case |
| CatalogLaws.RenameLocationOutcome | index.tsx:1195-1205 | a rename is refused exactly for a blank name, or for one another location (not the old one ignoring case) already has ignoring case |
| CatalogLaws.RenameLocationEffect | index.tsx:1207-1214 | the location list is the replaced list, sorted; every item at the old location moves to the new one; nothing else about items or records changes |
| CatalogLaws.RenameLocationLeavesNoStaleLocation | index.tsx:1210-1214 | after a rename to a different name no item is at the old location |
| CatalogLaws.RenameLocationKeepsBalance | index.tsx:1207-1214 | a location rename keeps the balance |
| CatalogLaws.RenameLocationKeepsItemBalance | index.tsx:1210-1214 | a location rename keeps the balance of every product |
| CatalogLaws.RenameLocationKeepsCatalogued | index.tsx:1200-1208 | a location rename keeps location names distinct ignoring case |
| CatalogLaws.DeleteLocationOutcome | index.tsx:1241-1247 | a location is deleted exactly when no item uses it and the deletion is confirmed, and the use check comes first |
| CatalogLaws.DeleteLocationEffect | index.tsx:1246 | a deletion removes that name and only it, keeps the order of the other locations, and changes nothing else |
| CatalogLaws.DeleteLocationKeepsCatalogued | index.tsx:1246 | deleting keeps location names distinct ignoring case |
| Query.FilteredItemsSound | index.tsx:262-281 | the list is an order-preserving subsequence of the items; every element matches the search on name or location ignoring case and passes the active selection; every such item is listed |
| Query.OnlySearchApplies | index.tsx:267-280 | with filters off, or with "all" selected for the active filter, only the search term decides |
| Query.NothingFiltersKeepsAll | index.tsx:265 | an empty search with filters off lists every item in order |
| Query.LocationSelection | index.tsx:268-269 | a location selection lists exactly the matching items at that location |
| Query.MatchesSearch | index.tsx:264-265 | the search test on name or location ignoring case; stated by `Query.FilteredItemsSound` and `Query.NothingFiltersKeepsAll` |
| Query.PassesSelection | index.tsx:267-280 | the active-filter test; stated by `Query.FilteredItemsSound`, `Query.OnlySearchApplies` and `Query.LocationSelection` |
| Query.FilteredItems | index.tsx:262-281 | the filtered stock list; contract in `Query.FilteredItemsSound`, `Query.OnlySearchApplies`, `Query.NothingFiltersKeepsAll` and `Query.LocationSelection` |
| Query.ItemNames | index.tsx:365 | one name per listed item, in order |
| Query.PeriodSummaryCounts | index.tsx:364-373 | each total is the sum of quantities over the records whose name is a listed item's name, and each count is the number of such records |
| Query.PeriodSummaryBounds | index.tsx:367-373 | with quantities at least 1, each total is at least its count, and no count exceeds the number of records |
| Query.PeriodSummary | index.tsx:364-373 | the period summary; contract in `Query.PeriodSummaryCounts` and `Query.PeriodSummaryBounds` |
| Query.MonthPrefixes | index.tsx:517 | the year-month prefix of each item's `lastUpdated`, in order |
| Query.MonthOptionsShape | index.tsx:517-518 | the options open with "all" and end with the months |
| Query.DescendingMonthsOrdered | index.tsx:518 | the months are listed strictly latest first, each once |
| Query.DescendingMonthsMembers | index.tsx:517 | the months offered are exactly the items' year-month prefixes other than "all" |
| Query.DescendingMonths | index.tsx:517-518 | the months other than "all", latest first; contract in `Query.DescendingMonthsOrdered` and `Query.DescendingMonthsMembers` |
| Query.MonthOptions | index.tsx:517-518 | the date filter's options; contract in `Query.MonthOptionsShape`, `Query.DescendingMonthsOrdered` and `Query.DescendingMonthsMembers` |
| Store.ErrorOf | index.tsx:594 | no error exactly when the handler ran, and otherwise the error it reports |
| Store.MockItemsCatalogued | index.tsx:9-16 | the six starting items have names distinct ignoring case |
| Store.MockLocationsCatalogued | index.tsx:18 | the five starting locations are distinct ignoring case |
| Store.MockState | index.tsx:9-28 | the page's sample data as a `State`; contract in `Store.MockStateConsistent` |
| Store.MockStateConsistent | index.tsx:9-28 | the starting data satisfies the record invariant and name uniqueness |
| Store.Ledger.constructor | index.tsx:9-28 | the ledger starts with the page's sample data and is consistent |
| Store.Ledger.Adjust | index.tsx:939-942 | an exact-name lookup followed by an in-place quantity change; only `items` changes |
| Store.Ledger.Receive | index.tsx:838-846 | the in-place update of the matched item, or a new item pushed followed by `sort` |
| Store.Ledger.RenameRecords | index.tsx:611-618 | the two `forEach` loops leave both histories renamed, and items and locations untouched |
| Store.Ledger.MoveItems | index.tsx:1210-1214 | the `forEach` loop leaves the items relocated and nothing else changed |
| Store.Ledger.PostEntrada | index.tsx:826-850 | the new state and the error are those of `Inventory.PostEntrada`, and the ledger stays consistent |
| Store.Ledger.EditEntrada | index.tsx:788-802 | the new state and the error are those of `Inventory.EditEntrada`, and the ledger stays consistent |
| Store.Ledger.DeleteEntrada | index.tsx:937-946 | the new state and the error are those of `Inventory.DeleteEntrada`, and the ledger stays consistent |
| Store.Ledger.PostSaida | index.tsx:1020-1038 | the new state and the error are those of `Inventory.PostSaida`, and the ledger stays consistent |
| Store.Ledger.EditSaida | index.tsx:978-998 | the new state and the error are those of `Inventory.EditSaida`, and the ledger stays consistent |
| Store.Ledger.DeleteSaida | index.tsx:1117-1126 | the new state and the error are those of `Inventory.DeleteSaida`, and the ledger stays consistent |
| Store.Ledger.EditItem | index.tsx:584-618 | the new state and the error are those of `Inventory.EditItem`, and the ledger stays consistent |
| Store.Ledger.AddLocation | index.tsx:1146-1158 | the new state and the error are those of `Inventory.AddLocation`, and the ledger stays consistent |
| Store.Ledger.RenameLocation | index.tsx:1193-1218 | the new state and the error are those of `Inventory.RenameLocation`, and the ledger stays consistent |
| Store.Ledger.DeleteLocation | index.tsx:1240-1250 | the new state and the error are those of `Inventory.DeleteLocation`, and the ledger stays consistent |

## Left out

- Rendering, DOM construction and event wiring are not modelled: `render`, the page and card builders, navigation and the UI-only state flags. Only the filter state that feeds the list and the summary is modelled.
- The export functions are not modelled: the spreadsheet, PDF, e-mail and share features call foreign libraries and browser APIs.
- `alert` and `confirm` are dialogs. An alert becomes the `Err` a transition returns, and the answer to `confirm` is the boolean parameter `confirmed`.
- `Date.now()` and today's date are parameters (`id`, `today`, `now`). The Store methods require the id to be fresh. The source calls `Date.now()` once per sample record and takes `now + k`; the model uses one `now` for all of them.
- `parseInt` on form input is not modelled. Quantities are integers. The transitions take any integer; the record-invariant lemmas (`PostEntradaKeepsValid`, `EditEntradaKeepsValid`, `PostSaidaKeepsValid`, `EditSaidaKeepsValid`) and the Store methods require at least 1, which is what the forms' `min: '1'` guarantees.
- `toLowerCase` is modelled for the Basic Latin and Latin-1 capitals only. Other scripts' case mappings, and mappings that change a string's length, are not modelled.
- `localeCompare` and the default `sort` order are both modelled as one code-point lexicographic order. Locale collation is not modelled.
- `trim` uses the ECMAScript white-space and line-terminator set. Text encoding is not modelled.
- The edit forms capture the record and its item when the form is rendered. The model looks both up by id and exact name when the form is submitted. The two agree as long as no other handler changes the ledger between the render and the submit.
- `RecordNotFound` is an id that is no longer listed. The page never submits one, so it stands for an edit form that is not shown.
- The month options' labels (`toLocaleString`) are not modelled. The order is the code-point order, reversed.
- The category and location option lists of the filter bar (`renderCategoryFilter`, `renderLocationFilter`) only feed the buttons and are not modelled.
- EditItemMovesItemBalance: the balance moved by a rename is stated only when item names are distinct ignoring case (`Catalogued`), which the handlers keep; with two items of the same exact name, the second one keeps its stock under the old name.
- The per-product balance is kept only while the records' names resolve exactly. A record stores its name as typed, so an entrada or saída typed in another letter case moves balance from one name to another (`CaseMismatchedEntradaShiftsItemBalance`); the total `Balance` is kept regardless.
- Object identity and aliasing are not modelled. An item or record updated in place is modelled as a sequence element replaced by an updated value, which is what the page observes.
