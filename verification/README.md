# ERP resource module — client-side list logic in Dafny

This project models the browser side of the ERP resource module. It covers the five resource pages: Units, Items, Price Lists, Unit Conversions and Item Prices. Each page loads a list of rows keyed by an integer id and does the following:

- searches the list by one chosen field;
- shows ten rows per page, with Previous/Next buttons;
- refuses to save a form with missing fields;
- folds the server's reply into the list: replace on update, append on create, remove on delete.

The project also models the Item Prices Report. It joins item prices with their item, the item's unit and the price list, and it has its own search rules and fallback texts. Its export covers the whole filtered list. Finally, it models the Login and Registration forms' credential checks.

Each handler is a pure state transition. The server's reply is one of its inputs (`Crud.Reply`: the request threw, or it returned a row or nothing). Form fields hold a small model of JavaScript values (`Js.Value`: undefined, string, number, NaN), so the pages' truthiness checks, `||` fallbacks, `parseInt` and `Number(...)` can be stated exactly.

Modules:

- `Wrappers`: `Option`.
- `Text`: ASCII lower-casing, substring search and its reference meaning, decimal rendering.
- `Js`: values, truthiness, `||`, `parseInt`, `Number`, rendering.
- `Listing`: `filter`, `find`, `map`, order-preserving subsequences.
- `Paging`: `Math.ceil(n/10)`, `slice`, guarded and clamped stepping, the search view.
- `Crud`: the generic edit form, Save, Delete and merge.
- One module per page: `Units`, `Items`, `PriceLists`, `UnitConversions`, `ItemPrices`, `Report`, `Login`, `Registration`.

## Model

| member | source | states |
|---|---|---|
| Text.Lower | vite-resource/src/Pages/Units.tsx:86-94 | `toLowerCase` keeps the length and maps every character independently; an upper-case ASCII letter becomes the lower-case letter at the same alphabet position, every other character is kept |
| Text.LowerEqualIffSameUpToCase | vite-resource/src/Pages/Units.tsx:86-94 | two strings lower-case alike iff they have the same length and agree position by position up to ASCII case |
| Text.Contains | vite-resource/src/Pages/Units.tsx:85-95 | `includes` holds whenever the needle is a prefix of the text (so always for the empty needle) and never for a needle longer than the text; its full meaning is ContainsIffOccurs |
| Text.ContainsIffOccurs | vite-resource/src/Pages/Units.tsx:85-95 | the left-to-right `includes` scan answers true exactly when the needle occurs as a contiguous slice at some position |
| Text.NatToString | vite-resource/src/Pages/Units.tsx:88 | the decimal text of a natural number is non-empty, all digits, denotes the number, and has no leading zero except "0" |
| Text.IntToString | vite-resource/src/Pages/Units.tsx:88 | `toString()` of an integer: digits denoting it, preceded by '-' exactly when it is negative, with no leading zero except in "0" itself |
| Js.Or | vite-resource/src/Pages/Report.tsx:96-103 | `a \|\| b` is `a` when `a` is truthy and `b` otherwise |
| Js.ParseInt | vite-resource/src/Pages/ItemPrices.tsx:55 | `parseInt` gives a number or NaN: NaN for the empty string and for a first character that is neither digit nor sign, a non-negative number when the text starts with a digit, a negative one only after a leading '-' |
| Js.ParseIntRoundTrip | vite-resource/src/Pages/ItemPrices.tsx:51-57 | `parseInt` of an id written with `toString()` gives back that id |
| Js.ParseIntIgnoresTail | vite-resource/src/Pages/ItemPrices.tsx:55 | `parseInt` of a digit run followed by text that does not start with a digit gives the digit run's value: the rest is ignored |
| Js.StringToNumber | vite-resource/src/Pages/UnitConversions.tsx:64-66 | `Number` of a string gives a number or NaN: 0 for the empty string, the value of an all-digit string, and a number otherwise only for a single leading sign followed by digits |
| Js.StringToNumberRoundTrip | vite-resource/src/Pages/UnitConversions.tsx:63-67 | `Number(...)` of an integer's decimal text gives back the integer |
| Js.ToNumber | vite-resource/src/Pages/UnitConversions.tsx:63-67 | `Number(v)` is always a number or NaN and leaves numbers unchanged |
| Listing.Filter | vite-resource/src/Pages/Units.tsx:85 | `filter` keeps exactly the rows the test accepts, each with its original multiplicity, and never grows the list |
| Listing.FilterIsSubsequence | vite-resource/src/Pages/Units.tsx:85 | the filtered list is an order-preserving subsequence of the loaded list |
| Listing.FilterKeepsAll | vite-resource/src/Pages/Units.tsx:85-95 | filtering with a test every row passes returns the list unchanged |
| Listing.FilterAppend | vite-resource/src/Pages/Units.tsx:57-79 | filtering a concatenation is the concatenation of the filtered parts |
| Listing.FilterKeepsUniqueKeys | vite-resource/src/Pages/Units.tsx:79 | filtering never creates a duplicate key |
| Listing.FindIndex | vite-resource/src/Pages/UnitConversions.tsx:38 | the index found is the first whose row passes the test; none found means no row passes |
| Listing.Find | vite-resource/src/Pages/UnitConversions.tsx:38 | `find` returns a row of the list that passes the test and sits at the first passing index; None exactly when no row passes |
| Listing.FindByKey | vite-resource/src/Pages/UnitConversions.tsx:38 | `find` by key returns a row with that key, and the only one when keys are unique; None iff no row has it |
| Listing.ReplaceWhere | vite-resource/src/Pages/Units.tsx:52 | the `map` used for updates keeps the length and replaces exactly the rows the test picks |
| Listing.MapCompose | vite-resource/src/Pages/Report.tsx:91 | mapping with two functions in turn is mapping with their composition |
| Listing.Map | vite-resource/src/Pages/Report.tsx:91 | `map` keeps the length and applies the function position by position |
| Paging.TotalPages | vite-resource/src/Pages/Units.tsx:97 | `Math.ceil(n/10)`: the fewest pages of ten that hold n rows; zero pages exactly when there are no rows |
| Paging.JsSlice | vite-resource/src/Pages/ItemPrices.tsx:128-129 | `slice` with negative-index clipping returns rows of the list only, never more than it holds |
| Paging.Visible | vite-resource/src/Pages/Units.tsx:98 | page p shows at most ten rows, exactly `filtered[min((p-1)*10,n) .. min(p*10,n))`, and nothing for page 0 |
| Paging.VisibleMap | vite-resource/src/Pages/Report.tsx:76 | taking a page commutes with mapping rows to their output form |
| Paging.VisibleNonEmptyInRange | vite-resource/src/Pages/Units.tsx:97-98 | pages 1..totalPages are non-empty and later pages are empty |
| Paging.RowOnItsPage | vite-resource/src/Pages/Units.tsx:97-98 | row i appears at position i mod 10 of page i div 10 + 1, which is a valid page |
| Paging.StepBack | vite-resource/src/Pages/Units.tsx:100-102 | guarded Previous decrements above page 1, leaves page 1 (or below) where it is, and keeps an in-range page in range |
| Paging.StepForward | vite-resource/src/Pages/Units.tsx:104-106 | guarded Next increments below totalPages, leaves a page at or past totalPages where it is, and keeps an in-range page in range |
| Paging.ClampBack | vite-resource/src/Pages/PriceLists.tsx:104-106 | `Math.max(prev - 1, 1)` never goes below page 1, decrements above it and gives page 1 from page 1 or below |
| Paging.ClampForward | vite-resource/src/Pages/PriceLists.tsx:108-110 | `Math.min(prev + 1, totalPages)` never exceeds totalPages, increments below it and moves a page at or past it back to totalPages |
| Paging.ClampedAgreesWithGuarded | vite-resource/src/Pages/PriceLists.tsx:104-110 | on an in-range page, clamped Previous equals guarded Previous; while Next is enabled, clamped Next equals guarded Next and stays in range |
| Paging.ClampForwardWithoutPages | vite-resource/src/Pages/PriceLists.tsx:205 | with no rows clamped Next would give page 0, and in exactly that case the button is disabled |
| Paging.Initial | vite-resource/src/Pages/Units.tsx:15-17 | the first render shows page 1 with an empty search |
| Paging.WithText | vite-resource/src/Pages/Units.tsx:130-133 | typing changes only the text and sends the page back to 1 |
| Paging.WithField | vite-resource/src/Pages/Units.tsx:119 | choosing a field changes only the field; the page resets only on pages that watch the field |
| Crud.ReplaceById | vite-resource/src/Pages/Units.tsx:52 | an update keeps the length, swaps in the returned row exactly where the id matches, and keeps every other row |
| Crud.RemoveById | vite-resource/src/Pages/Units.tsx:79 | a delete removes every row with the id and keeps each other row with its multiplicity |
| Crud.Merge | vite-resource/src/Pages/Units.tsx:49-59 | no truthy id in the reply changes nothing; an update replaces the matching rows in place; a create appends the row at the end |
| Crud.Save | vite-resource/src/Pages/Units.tsx:37-68 | a refused form sends nothing and changes nothing; otherwise PUT to the edited id or POST; a failed call leaves the state and alerts; an answer merges and clears the form; rows other than the edited one survive; the list grows by one exactly on a stored create |
| Crud.Delete | vite-resource/src/Pages/Units.tsx:76-83 | only a confirmed DELETE removes the rows, and the form is untouched |
| Crud.AddNew | vite-resource/src/Pages/Units.tsx:31-35 | Add New opens an empty form in create mode over the same list |
| Crud.Edit | vite-resource/src/Pages/Units.tsx:70-74 | the form becomes the row read as a form, the edit target its id and the form opens; the rows are untouched |
| Crud.RemoveKeepsOrder | vite-resource/src/Pages/Units.tsx:79 | a delete keeps the remaining rows in their order |
| Crud.DeleteUndoesCreate | vite-resource/src/Pages/Units.tsx:57-79 | deleting the fresh id that a create just appended restores the previous list |
| Crud.DeleteAfterUpdate | vite-resource/src/Pages/Units.tsx:52-79 | deleting an id after updating it gives the same list as deleting it before |
| Crud.MergeKeepsUniqueIds | vite-resource/src/Pages/Units.tsx:49-59 | merging keeps ids unique when a create brings a fresh id and an update keeps the edited id |
| Crud.RemoveKeepsUniqueIds | vite-resource/src/Pages/Units.tsx:79 | a delete keeps ids unique |
| Units.Search | vite-resource/src/Pages/Units.tsx:85-95 | `filteredUnits` holds exactly the loaded units that pass the field's match test, and no more rows than were loaded; SearchSelects gives the test's meaning |
| Units.SearchSelects | vite-resource/src/Pages/Units.tsx:85-95 | a unit is found iff the lower-cased text occurs in its lower-cased name or symbol, or in its decimal id; matches keep multiplicity and order |
| Units.EmptySearchKeepsAll | vite-resource/src/Pages/Units.tsx:85-95 | an empty search shows every unit |
| Units.PayloadOf | vite-resource/src/Pages/Units.tsx:38-46 | Save goes ahead iff name and symbol are both truthy, and then sends exactly those two fields |
| Units.Save | vite-resource/src/Pages/Units.tsx:37-68 | an empty name or symbol sends nothing and leaves the list unchanged; a passing form is always sent, PUT to the edited id or POSTed; a failed call leaves the page as it was; an answer merges the reply into the list and clears the form |
| Units.Edit | vite-resource/src/Pages/Units.tsx:70-74 | the form holds the unit's own name and symbol and the edit targets its id |
| Units.EditedRowIsResent | vite-resource/src/Pages/Units.tsx:37-74 | saving an edited unit unchanged is sent iff its name and symbol are non-empty, and then PUTs exactly those to its id |
| Units.Delete | vite-resource/src/Pages/Units.tsx:76-80 | after a confirmed delete, the units left are exactly those with another id |
| Units.VisibleRows | vite-resource/src/Pages/Units.tsx:98 | at most ten rows, all loaded units that match the search |
| Units.Previous | vite-resource/src/Pages/Units.tsx:100-102 | decrements above page 1, stays on page 1, and keeps an in-range page in range |
| Units.Next | vite-resource/src/Pages/Units.tsx:104-106 | increments below totalPages, stays at or past it, and keeps an in-range page in range |
| Units.SetText | vite-resource/src/Pages/Units.tsx:130-133 | editing the search text resets the page to 1 |
| Units.SetField | vite-resource/src/Pages/Units.tsx:119 | changing the field keeps the page |
| Units.Lookup | vite-resource/src/Pages/UnitConversions.tsx:38 | `units.find` by id returns a unit with that id, and the only one when ids are unique; None iff no unit has it |
| Items.ChooseType | vite-resource/src/Pages/Items.tsx:161-171 | the type select yields a truthy type iff a real option is chosen, and such a type is one of Materials, Labors, Tools, Machineries |
| Items.ChooseUnit | vite-resource/src/Pages/Items.tsx:173-185 | the unit select yields a truthy value iff a unit is chosen, and that value's number is the chosen unit's id |
| Items.SavedTypeIsListed | vite-resource/src/Pages/Items.tsx:50-60 | a save that passes the check with a type picked from the select carries one of the four listed types |
| Items.Search | vite-resource/src/Pages/Items.tsx:99-109 | `filteredItems` holds exactly the loaded items that pass the field's match test, and no more rows than were loaded; SearchSelects gives the test's meaning |
| Items.SearchSelects | vite-resource/src/Pages/Items.tsx:99-109 | an item is found iff the lower-cased text occurs in its lower-cased name or type, or in its decimal id; matches keep multiplicity and order |
| Items.EmptySearchKeepsAll | vite-resource/src/Pages/Items.tsx:99-109 | an empty search shows every item |
| Items.PayloadOf | vite-resource/src/Pages/Items.tsx:50-60 | Save goes ahead iff name, type, unit id and description are all truthy, and then sends those four fields unchanged |
| Items.Save | vite-resource/src/Pages/Items.tsx:49-82 | a refused form sends nothing and changes nothing; a passing form is always sent, its four fields PUT to the edited id or POSTed; a failed call changes nothing; an answer merges the reply into the list and clears the form |
| Items.Edit | vite-resource/src/Pages/Items.tsx:84-88 | the form holds the item's own name, type, unit id and description and the edit targets its id |
| Items.EditedRowIsResent | vite-resource/src/Pages/Items.tsx:49-88 | saving an edited item unchanged is sent iff its text fields are non-empty and its unit id non-zero, and then PUTs exactly those fields to its id |
| Items.Delete | vite-resource/src/Pages/Items.tsx:90-93 | after a confirmed delete, the items left are exactly those with another id |
| Items.UnitCell | vite-resource/src/Pages/Items.tsx:211 | the Unit column shows the matching unit's name when it is non-empty, and the raw unit id when no unit matches or the matching unit's name is empty |
| Items.Lookup | vite-resource/src/Pages/Report.tsx:92 | `items.find` by id returns an item with that id, and the only one when ids are unique; None iff no item has it |
| Items.VisibleRows | vite-resource/src/Pages/Items.tsx:111-115 | at most ten rows, all loaded items that match the search |
| Items.Previous | vite-resource/src/Pages/Items.tsx:117-119 | decrements above page 1, stays on page 1, and keeps an in-range page in range |
| Items.Next | vite-resource/src/Pages/Items.tsx:121-123 | increments below totalPages, stays at or past it, and keeps an in-range page in range |
| Items.SetText | vite-resource/src/Pages/Items.tsx:146-150 | editing the search text resets the page to 1 |
| PriceLists.Search | vite-resource/src/Pages/PriceLists.tsx:89-99 | `filteredPriceLists` holds exactly the loaded price lists that pass the field's match test, and no more rows than were loaded; SearchSelects gives the test's meaning |
| PriceLists.SearchSelects | vite-resource/src/Pages/PriceLists.tsx:89-99 | a price list is found iff the lower-cased text occurs in its lower-cased name or location, or in its decimal id; matches keep multiplicity and order |
| PriceLists.PayloadOf | vite-resource/src/Pages/PriceLists.tsx:40-50 | Save goes ahead iff name, location and both dates are truthy, and then sends those four fields |
| PriceLists.DatesNotOrdered | vite-resource/src/Pages/PriceLists.tsx:40-43 | a validity period that ends before it starts still passes the check |
| PriceLists.Save | vite-resource/src/Pages/PriceLists.tsx:39-72 | a refused form sends nothing and changes nothing; a passing form is always sent, its four fields PUT to the edited id or POSTed; a failed call changes nothing; an answer merges the reply into the list and clears the form |
| PriceLists.Edit | vite-resource/src/Pages/PriceLists.tsx:74-78 | the form holds the price list's own name, location and dates and the edit targets its id |
| PriceLists.EditedRowIsResent | vite-resource/src/Pages/PriceLists.tsx:39-78 | saving an edited price list unchanged is sent iff its four fields are non-empty, and then PUTs exactly those to its id |
| PriceLists.Delete | vite-resource/src/Pages/PriceLists.tsx:80-84 | after a confirmed delete, the price lists left are exactly those with another id |
| PriceLists.Lookup | vite-resource/src/Pages/Report.tsx:93 | `priceLists.find` by id returns a list with that id, and the only one when ids are unique; None iff no list has it |
| PriceLists.VisibleRows | vite-resource/src/Pages/PriceLists.tsx:101-102 | at most ten rows, all loaded price lists that match the search |
| PriceLists.Previous | vite-resource/src/Pages/PriceLists.tsx:104-106 | never below page 1: decrements above it, and gives page 1 from page 1 or below |
| PriceLists.Next | vite-resource/src/Pages/PriceLists.tsx:108-110 | never past totalPages; from a page at or past totalPages (after rows were deleted, say) it goes to totalPages; while enabled on an in-range page it increments and stays in range |
| PriceLists.SetText | vite-resource/src/Pages/PriceLists.tsx:134-137 | editing the search text resets the page to 1 |
| UnitConversions.Input | vite-resource/src/Pages/UnitConversions.tsx:42-45 | each control stores its raw text in its own field only |
| UnitConversions.UnitName | vite-resource/src/Pages/UnitConversions.tsx:37-40 | the name of a unit with that id (the only one when ids are unique), else "ID " followed by the id |
| UnitConversions.Search | vite-resource/src/Pages/UnitConversions.tsx:106-116 | `filteredConversions` holds exactly the loaded conversions that pass the field's match test, and no more rows than were loaded; SearchSelects gives the test's meaning |
| UnitConversions.SearchSelects | vite-resource/src/Pages/UnitConversions.tsx:106-116 | a conversion is found iff the lower-cased text occurs in its decimal id or in the lower-cased resolved name of its from/to unit; matches keep order |
| UnitConversions.GramMatchesKilogram | vite-resource/src/Pages/UnitConversions.tsx:106-116 | a From search for "gram" finds the conversions from "gram" and from "kilogram" |
| UnitConversions.PayloadOf | vite-resource/src/Pages/UnitConversions.tsx:54-67 | Save is refused iff a field is undefined; the payload is the three fields through `Number`, with no id |
| UnitConversions.EmptyStringsAreSent | vite-resource/src/Pages/UnitConversions.tsx:54-67 | placeholders and a cleared rate are not refused and go out as 0 |
| UnitConversions.EditedRowSendsItsValues | vite-resource/src/Pages/UnitConversions.tsx:53-95 | saving an edited conversion unchanged always PUTs its own unit ids and rate to its id |
| UnitConversions.Save | vite-resource/src/Pages/UnitConversions.tsx:53-89 | a form with an undefined field sends nothing and changes nothing; any other form is sent, its numbers PUT to the edited id or POSTed; a failed call changes nothing; an answer merges the reply into the list and clears the form |
| UnitConversions.Edit | vite-resource/src/Pages/UnitConversions.tsx:91-95 | the form holds the conversion's own unit ids and rate and the edit targets its id |
| UnitConversions.Delete | vite-resource/src/Pages/UnitConversions.tsx:97-100 | after a confirmed delete, the conversions left are exactly those with another id |
| UnitConversions.VisibleRows | vite-resource/src/Pages/UnitConversions.tsx:118-119 | at most ten rows, all loaded conversions that match the search |
| UnitConversions.Previous | vite-resource/src/Pages/UnitConversions.tsx:121-123 | never below page 1: decrements above it, and gives page 1 from page 1 or below |
| UnitConversions.Next | vite-resource/src/Pages/UnitConversions.tsx:125-127 | never past totalPages; from a page at or past totalPages (after rows were deleted, say) it goes to totalPages; while enabled on an in-range page it increments and stays in range |
| UnitConversions.SetText | vite-resource/src/Pages/UnitConversions.tsx:150-154 | editing the search text resets the page to 1 |
| ItemPrices.Input | vite-resource/src/Pages/ItemPrices.tsx:51-57 | the price goes through the number parser; an id select set to "" becomes undefined and any other value is parsed; other fields are kept |
| ItemPrices.SelectStoresId | vite-resource/src/Pages/ItemPrices.tsx:51-57 | choosing an option whose value is a loaded id stores exactly that id |
| ItemPrices.MatchesIffSelected | vite-resource/src/Pages/ItemPrices.tsx:113-125 | the page's test agrees with the reference meaning: id substring, or lookup-then-name-or-id substring, false when not loaded |
| ItemPrices.Search | vite-resource/src/Pages/ItemPrices.tsx:113-125 | `filteredItemPrices` holds exactly the loaded item prices that pass the field's match test, and no more rows than were loaded; SearchSelects gives the test's meaning |
| ItemPrices.SearchSelects | vite-resource/src/Pages/ItemPrices.tsx:113-125 | a row is found iff it is selected in the reference sense; matches keep order |
| ItemPrices.UnloadedNeverMatches | vite-resource/src/Pages/ItemPrices.tsx:117-122 | a row whose price list (or item) is not loaded never matches that field, even for the empty search |
| ItemPrices.PayloadOf | vite-resource/src/Pages/ItemPrices.tsx:66-75 | Save is refused iff a price-list or item id is falsy (missing, 0 or NaN) or the price is undefined |
| ItemPrices.TouchedPriceIsSent | vite-resource/src/Pages/ItemPrices.tsx:51-69 | once the price box has been typed in, the price check passes; a cleared box sends NaN |
| ItemPrices.Save | vite-resource/src/Pages/ItemPrices.tsx:65-96 | a refused form changes nothing; a passing form is always sent, PUT to the edited id or POSTed; a failed call changes nothing; an answer merges the reply and clears the form; rows with another id survive; the page goes to 1 exactly when the list is written |
| ItemPrices.Edit | vite-resource/src/Pages/ItemPrices.tsx:98-102 | the form holds the item price's own ids and price, the edit targets its id, and the page is kept |
| ItemPrices.EditedRowIsResent | vite-resource/src/Pages/ItemPrices.tsx:65-102 | saving an edited item price unchanged is sent iff its price-list and item ids are non-zero, and then PUTs exactly its values to its id |
| ItemPrices.Delete | vite-resource/src/Pages/ItemPrices.tsx:104-107 | a confirmed delete leaves exactly the rows with another id and resets the page |
| ItemPrices.Load | vite-resource/src/Pages/ItemPrices.tsx:33-37 | the fetched list replaces the rows and the page resets |
| ItemPrices.SetText | vite-resource/src/Pages/ItemPrices.tsx:139-141 | a new search text resets the page to 1 |
| ItemPrices.SetField | vite-resource/src/Pages/ItemPrices.tsx:139-141 | a new search field resets the page to 1 |
| ItemPrices.VisibleRows | vite-resource/src/Pages/ItemPrices.tsx:127-129 | `slice(startIndex, startIndex + 10)` shows the same rows as the other pages' page formula, at most ten |
| ItemPrices.Previous | vite-resource/src/Pages/ItemPrices.tsx:131-133 | decrements above page 1, stays on page 1, and keeps an in-range page in range |
| ItemPrices.Next | vite-resource/src/Pages/ItemPrices.tsx:135-137 | increments below totalPages, stays at or past it, and keeps an in-range page in range |
| Report.Search | vite-resource/src/Pages/Report.tsx:50-72 | `filteredItemPrices` holds exactly the loaded item prices that pass the field's match test, and no more rows than were loaded; the three SearchMeaning lemmas give the test's meaning |
| Report.ItemSearchMeaning | vite-resource/src/Pages/Report.tsx:55-59 | with the item loaded, a row matches iff the text occurs in the item's lower-cased name or id; without it, only the empty search matches |
| Report.TypeSearchMeaning | vite-resource/src/Pages/Report.tsx:60-64 | with the item loaded, a row matches the type search iff the text occurs in the item's lower-cased type or its item id; without it, only the empty search matches |
| Report.TypeSearchMatchesItemId | vite-resource/src/Pages/Report.tsx:60-64 | the type search also matches on the item id, whatever the type (a corollary of TypeSearchMeaning) |
| Report.LocationSearchMeaning | vite-resource/src/Pages/Report.tsx:65-69 | with the price list loaded, a row matches iff the text occurs in its lower-cased location or id; without it, only the empty search matches |
| Report.SearchKeepsOrder | vite-resource/src/Pages/Report.tsx:50 | the report keeps the order of the loaded item prices |
| Report.JoinRow | vite-resource/src/Pages/Report.tsx:96-105 | from the looked-up item, price list and unit: the price is copied, the "-"-fallback cells are never blank, a missing item gives the item id and "-" for type and unit, a missing price list gives its id and "-" cells, and a named item gives its name |
| Report.UnitOf | vite-resource/src/Pages/Report.tsx:94 | with no item there is no unit: the unit is looked up only through the item |
| Report.ExportRow | vite-resource/src/Pages/Report.tsx:92-105 | the price is copied; type, unit, location and dates are never blank; with no item, Item is the item id and Type and Unit are "-"; with no price list, Price List is its id and the other cells are "-"; a unit other than "-" needs a loaded item; with unique ids Item is the item's name |
| Report.UnitFallsBackToItemUnitId | vite-resource/src/Pages/Report.tsx:94-99 | with the item loaded but not its unit, the Unit column is the item's unit id, or "-" for id 0 |
| Report.Export | vite-resource/src/Pages/Report.tsx:90-106 | one row per filtered item price, in filter order, whatever page is showing |
| Report.TableCellsMatchJoin | vite-resource/src/Pages/Report.tsx:158-173 | the cells the JSX writes out for a row are the rendered texts of the export's cells, for any lookup results |
| Report.TableRow | vite-resource/src/Pages/Report.tsx:158-173 | each on-screen row has eight cells with the price last; a row whose item is not loaded shows the item id and dashes for type and unit, one whose price list is not loaded shows the list id and dashes |
| Report.TableRowMatchesExport | vite-resource/src/Pages/Report.tsx:158-173 | each on-screen row shows the same texts as the exported row of the same item price |
| Report.VisibleTable | vite-resource/src/Pages/Report.tsx:74-76 | the table shows at most ten rows |
| Report.VisibleTableIsExportPage | vite-resource/src/Pages/Report.tsx:74-106 | the table is exactly the current page of the export, rendered |
| Report.ExportRowOnItsPage | vite-resource/src/Pages/Report.tsx:74-106 | every exported row, including those beyond the visible page, is shown at position i mod 10 of a valid page |
| Report.SetText | vite-resource/src/Pages/Report.tsx:78-80 | a new search text resets the page to 1 |
| Report.SetField | vite-resource/src/Pages/Report.tsx:78-80 | a new search field resets the page to 1 |
| Report.Previous | vite-resource/src/Pages/Report.tsx:82-84 | never below page 1: decrements above it, and gives page 1 from page 1 or below |
| Report.Next | vite-resource/src/Pages/Report.tsx:86-88 | never past totalPages; from a page at or past totalPages (after rows were deleted, say) it goes to totalPages; while enabled on an in-range page it increments and stays in range |
| Login.AllAllowed | vite-resource/src/Pages/Login.tsx:24 | true iff every character is in `[A-Za-z0-9!@#$%^&*]` |
| Login.HasDigit | vite-resource/src/Pages/Login.tsx:24 | true iff some character is a digit |
| Login.HasSpecial | vite-resource/src/Pages/Login.tsx:24 | true iff some character is one of `!@#$%^&*` |
| Login.PasswordOk | vite-resource/src/Pages/Login.tsx:24-28 | the regex accepts iff the password has at least 8 characters from the class, among them a digit and a special character |
| Login.HandleLogin | vite-resource/src/Pages/Login.tsx:16-33 | no '@' gives the email error; then a policy failure gives the password error; `onLogin` is called iff both pass, with the unchanged credentials and a cleared error; the fields never change |
| Login.EmailCheckedFirst | vite-resource/src/Pages/Login.tsx:19-28 | with both fields invalid the email error is shown |
| Login.Reset | vite-resource/src/Pages/Login.tsx:35-40 | reset empties email, password and error and hides the password |
| Login.AcceptedExample | vite-resource/src/Pages/Login.tsx:24 | "abcdef1!" passes the policy |
| Login.SpaceRejectedExample | vite-resource/src/Pages/Login.tsx:24 | a space is outside the class, so "abcdef1! " fails |
| Login.NoSpecialRejectedExample | vite-resource/src/Pages/Login.tsx:24 | "abcdefg1" has no special character and fails |
| Registration.HandleRegister | vite-resource/src/Pages/Registration.tsx:15-33 | no '@' gives the email error, which takes precedence; then fewer than 6 characters gives the length error; `onRegister` is called iff both pass, with the same credentials |
| Registration.Clear | vite-resource/src/Pages/Registration.tsx:35-39 | clear empties email, password and error |

## Left out

- The Express API (`API/server.js`, `API/routes/`): each handler is one SQL statement run against a database that is not part of this model. This includes the `x || null` coalescing in PUT and the unused in-memory arrays.
- `App.tsx` routing and its placeholder credential list; ContactUs (an EmailJS network call), Features, Footer, NavBar and SideBar, which are static UI or I/O.
- HTTP calls, their timing and React's batching of state updates: each handler takes the call's outcome as an input and runs as one step. The effects that reset the page on the Item Prices and Report pages are applied in the same step as the change that triggers them.
- The XLSX workbook and file download: only the row list handed to the sheet writer (`Report.Export`) is modelled.
- Floating-point values: prices and conversion rates are integers. `parseFloat` on the price box is modelled with the integer parser, and `Number(...)` accepts only an optional sign and digits. Fractions, exponents, infinities, leading and trailing whitespace and the `0x` prefix are not modelled.
- Unicode case mapping: `toLowerCase` maps ASCII letters only.
- Registration's length check counts Dafny characters, not UTF-16 code units.
- The text inputs' `handleInputChange` on Units, Items and Price Lists, which only stores the typed string in the form. The forms are taken as given `Js.Value` fields instead.
- The `navigate(...)` calls after a successful login or registration, and the "Registration successful!" alert: both are routing or UI outside the checks.
- `alert` and `console.error` texts: the alert is modelled by which of the two alerts is raised (`Crud.Alert`).
- A reply whose `res.data` is missing and a reply whose row has a falsy id are both handled by the same guard. `Answered(None)` stands for the missing row, and a row with id 0 for the falsy id.
- `unit_id` is declared as a string in the Items page's interface but compared with `===` against numeric unit ids. The model treats it as the number the server sends.
- Items.UnitCell: when several units share the item's unit id, the contract says only that the cell is one of their names or the id (the source takes the first match); with unique unit ids every case is stated.
