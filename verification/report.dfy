/** The Item Prices Report page: item prices left-joined with their item,
    the item's unit and their price list, searched by item, type or
    location, shown ten per page and exported as a whole. */
module Report {
  import opened Wrappers
  import opened Text
  import opened Js
  import Listing
  import Paging
  import Units
  import Items
  import PriceLists
  import ItemPrices

  type ItemPrice = ItemPrices.ItemPrice

  datatype SearchField = ByItem | ByType | ByLocation

  type View = Paging.View<SearchField>

  /** One row of the export, as handed to the spreadsheet writer: a text
      or numeric cell per column. */
  datatype Row = Row(item: Value, itemType: Value, unit: Value, priceList: Value,
                     location: Value, validFrom: Value, validTo: Value, price: Value)

  /** The loaded collections the report joins. */
  datatype Tables = Tables(items: seq<Items.Item>, lists: seq<PriceLists.PriceList>, units: seq<Units.Unit>)

  /** `(x?.id.toString() ?? "")`. */
  function IdText(id: Option<int>): string {
    if id.Some? then IntToString(id.value) else ""
  }

  /** The search test of `filteredItemPrices`. Each field also matches on
      the joined row's id; a field whose row is not loaded matches only the
      empty search. The type search matching on the item id is the page's
      own behaviour. */
  predicate Matches(t: Tables, ip: ItemPrice, field: SearchField, text: string) {
    var v := Lower(text);
    var item := Items.Lookup(t.items, ip.itemId);
    var pl := PriceLists.Lookup(t.lists, ip.priceListId);
    var itemId := if item.Some? then Some(item.value.id) else None;
    var listId := if pl.Some? then Some(pl.value.id) else None;
    match field
    case ByItem => (item.Some? && Contains(Lower(item.value.name), v)) || Contains(IdText(itemId), v)
    case ByType => (item.Some? && Contains(Lower(item.value.itemType), v)) || Contains(IdText(itemId), v)
    case ByLocation => (pl.Some? && Contains(Lower(pl.value.location), v)) || Contains(IdText(listId), v)
  }

  /** `filteredItemPrices`. */
  function Search(t: Tables, rows: seq<ItemPrice>, field: SearchField, text: string): (r: seq<ItemPrice>)
    ensures |r| <= |rows|
    ensures forall ip :: ip in r <==> ip in rows && Matches(t, ip, field, text)
  {
    Listing.Filter(rows, (ip: ItemPrice) => Matches(t, ip, field, text))
  }

  /** The item search in reference terms: with the row's item loaded, the
      text occurs in its lower-cased name or in its id; without it, only the
      empty search matches. */
  lemma ItemSearchMeaning(t: Tables, ip: ItemPrice, text: string)
    ensures Items.Lookup(t.items, ip.itemId).Some? ==>
      var item := Items.Lookup(t.items, ip.itemId).value;
      (Matches(t, ip, ByItem, text) <==>
         Occurs(Lower(item.name), Lower(text)) || Occurs(IntToString(item.id), Lower(text)))
    ensures Items.Lookup(t.items, ip.itemId).None? ==>
      (Matches(t, ip, ByItem, text) <==> text == "")
  {
    var item := Items.Lookup(t.items, ip.itemId);
    if item.Some? {
      ContainsIffOccurs(Lower(item.value.name), Lower(text));
      ContainsIffOccurs(IntToString(item.value.id), Lower(text));
    } else {
      ContainsIffOccurs("", Lower(text));
      assert Occurs("", Lower(text)) ==> Lower(text) == "" by {
        if Occurs("", Lower(text)) {
          var i :| OccursAt("", Lower(text), i);
        }
      }
    }
  }

  /** The type search in reference terms: with the row's item loaded, the
      text occurs in its lower-cased type or in its item id; without it,
      only the empty search matches. */
  lemma TypeSearchMeaning(t: Tables, ip: ItemPrice, text: string)
    ensures Items.Lookup(t.items, ip.itemId).Some? ==>
      (Matches(t, ip, ByType, text) <==>
         Occurs(Lower(Items.Lookup(t.items, ip.itemId).value.itemType), Lower(text))
         || Occurs(IntToString(ip.itemId), Lower(text)))
    ensures Items.Lookup(t.items, ip.itemId).None? ==>
      (Matches(t, ip, ByType, text) <==> text == "")
  {
    var item := Items.Lookup(t.items, ip.itemId);
    if item.Some? {
      ContainsIffOccurs(Lower(item.value.itemType), Lower(text));
      ContainsIffOccurs(IntToString(item.value.id), Lower(text));
    } else {
      ContainsIffOccurs("", Lower(text));
      assert Occurs("", Lower(text)) ==> Lower(text) == "" by {
        if Occurs("", Lower(text)) {
          var i :| OccursAt("", Lower(text), i);
        }
      }
    }
  }

  /** The type search also matches a row whose item id contains the text,
      whatever the item's type. */
  lemma TypeSearchMatchesItemId(t: Tables, ip: ItemPrice, text: string)
    requires Items.Lookup(t.items, ip.itemId).Some?
    requires Occurs(IntToString(ip.itemId), Lower(text))
    ensures Matches(t, ip, ByType, text)
  {
    TypeSearchMeaning(t, ip, text);
  }

  /** The location search in reference terms. */
  lemma LocationSearchMeaning(t: Tables, ip: ItemPrice, text: string)
    ensures PriceLists.Lookup(t.lists, ip.priceListId).Some? ==>
      var pl := PriceLists.Lookup(t.lists, ip.priceListId).value;
      (Matches(t, ip, ByLocation, text) <==>
         Occurs(Lower(pl.location), Lower(text)) || Occurs(IntToString(pl.id), Lower(text)))
    ensures PriceLists.Lookup(t.lists, ip.priceListId).None? ==>
      (Matches(t, ip, ByLocation, text) <==> text == "")
  {
    var pl := PriceLists.Lookup(t.lists, ip.priceListId);
    if pl.Some? {
      ContainsIffOccurs(Lower(pl.value.location), Lower(text));
      ContainsIffOccurs(IntToString(pl.value.id), Lower(text));
    } else {
      ContainsIffOccurs("", Lower(text));
      assert Occurs("", Lower(text)) ==> Lower(text) == "" by {
        if Occurs("", Lower(text)) {
          var i :| OccursAt("", Lower(text), i);
        }
      }
    }
  }

  /** The report's rows keep the order of the loaded item prices. */
  lemma SearchKeepsOrder(t: Tables, rows: seq<ItemPrice>, field: SearchField, text: string)
    ensures Listing.Subsequence(Search(t, rows, field, text), rows)
  {
    Listing.FilterIsSubsequence(rows, (ip: ItemPrice) => Matches(t, ip, field, text));
  }

  /** The cells of one export row, from the row's item, price list and
      unit as the lookups found them: each `x?.f || fallback`. */
  function JoinRow(item: Option<Items.Item>, pl: Option<PriceLists.PriceList>, unit: Option<Units.Unit>,
                   ip: ItemPrice): (r: Row)
    requires item.None? ==> unit.None?
    ensures r.price == Num(ip.price)
    ensures Truthy(r.itemType) && Truthy(r.unit) && Truthy(r.location) && Truthy(r.validFrom) && Truthy(r.validTo)
    ensures item.None? ==> r.item == Num(ip.itemId) && r.itemType == Str("-") && r.unit == Str("-")
    ensures pl.None? ==>
      && r.priceList == Num(ip.priceListId)
      && r.location == Str("-") && r.validFrom == Str("-") && r.validTo == Str("-")
    ensures item.Some? && item.value.name != "" ==> r.item == Str(item.value.name)
  {
    var unitName := if unit.Some? then Str(unit.value.name) else Undefined;
    var unitId := if item.Some? then Num(item.value.unitId) else Undefined;
    // `item?.item_name` and the other optional-chained fields.
    var name := if item.Some? then Str(item.value.name) else Undefined;
    var itemType := if item.Some? then Str(item.value.itemType) else Undefined;
    var listName := if pl.Some? then Str(pl.value.name) else Undefined;
    var location := if pl.Some? then Str(pl.value.location) else Undefined;
    var validFrom := if pl.Some? then Str(pl.value.validFrom) else Undefined;
    var validTo := if pl.Some? then Str(pl.value.validTo) else Undefined;
    Row(Or(name, Num(ip.itemId)),
        Or(itemType, Str("-")),
        Or(unitName, Or(unitId, Str("-"))),
        Or(listName, Num(ip.priceListId)),
        Or(location, Str("-")),
        Or(validFrom, Str("-")),
        Or(validTo, Str("-")),
        Num(ip.price))
  }

  /** The unit is looked up only through the row's item. */
  function UnitOf(t: Tables, item: Option<Items.Item>): (r: Option<Units.Unit>)
    ensures item.None? ==> r.None?
  {
    if item.Some? then Units.Lookup(t.units, item.value.unitId) else None
  }

  /** The joined row of `handleGenerateReport`, with its fallbacks. */
  function ExportRow(t: Tables, ip: ItemPrice): (r: Row)
    ensures r.price == Num(ip.price)
    ensures Truthy(r.itemType) && Truthy(r.unit) && Truthy(r.location) && Truthy(r.validFrom) && Truthy(r.validTo)
    ensures (forall j :: 0 <= j < |t.items| ==> t.items[j].id != ip.itemId) ==>
      r.item == Num(ip.itemId) && r.itemType == Str("-") && r.unit == Str("-")
    ensures (forall j :: 0 <= j < |t.lists| ==> t.lists[j].id != ip.priceListId) ==>
      && r.priceList == Num(ip.priceListId)
      && r.location == Str("-") && r.validFrom == Str("-") && r.validTo == Str("-")
    ensures r.unit != Str("-") ==> exists item :: item in t.items && item.id == ip.itemId
    ensures Listing.UniqueKeys(t.items, Items.IdOf) ==>
      forall j :: 0 <= j < |t.items| && t.items[j].id == ip.itemId && t.items[j].name != "" ==>
        r.item == Str(t.items[j].name)
  {
    var item := Items.Lookup(t.items, ip.itemId);
    JoinRow(item, PriceLists.Lookup(t.lists, ip.priceListId), UnitOf(t, item), ip)
  }

  /** When the item is loaded but its unit is not, the Unit column shows
      the item's unit id, or "-" when that id is 0. */
  lemma UnitFallsBackToItemUnitId(t: Tables, ip: ItemPrice)
    requires Items.Lookup(t.items, ip.itemId).Some?
    requires forall j :: 0 <= j < |t.units| ==> t.units[j].id != Items.Lookup(t.items, ip.itemId).value.unitId
    ensures ExportRow(t, ip).unit ==
      var unitId := Items.Lookup(t.items, ip.itemId).value.unitId;
      if unitId != 0 then Num(unitId) else Str("-")
  {
  }

  /** `handleGenerateReport`'s `reportData`: one row per filtered item
      price, in filter order, whatever page is showing. */
  function Export(t: Tables, rows: seq<ItemPrice>, field: SearchField, text: string): (r: seq<Row>)
    ensures |r| == |Search(t, rows, field, text)|
    ensures forall i :: 0 <= i < |r| ==> r[i] == ExportRow(t, Search(t, rows, field, text)[i])
  {
    Listing.Map(Search(t, rows, field, text), (ip: ItemPrice) => ExportRow(t, ip))
  }

  /** The text of one export row, as the table would show it. */
  function RenderRow(row: Row): seq<string> {
    [Render(row.item), Render(row.itemType), Render(row.unit), Render(row.priceList),
     Render(row.location), Render(row.validFrom), Render(row.validTo), Render(row.price)]
  }

  /** The cells of one on-screen row, from the row's item, price list and
      unit, written out cell by cell as the JSX does. */
  function TableCells(item: Option<Items.Item>, pl: Option<PriceLists.PriceList>, unit: Option<Units.Unit>,
                      ip: ItemPrice): (r: seq<string>)
    ensures |r| == 8
    ensures r[7] == IntToString(ip.price)
    ensures item.None? ==> r[0] == IntToString(ip.itemId) && r[1] == "-"
    ensures item.None? && unit.None? ==> r[2] == "-"
    ensures pl.None? ==> r[3] == IntToString(ip.priceListId) && r[4] == "-" && r[5] == "-" && r[6] == "-"
  {
    var itemCell := if item.Some? && item.value.name != "" then item.value.name else IntToString(ip.itemId);
    var typeCell := if item.Some? && item.value.itemType != "" then item.value.itemType else "-";
    var unitCell :=
      if unit.Some? && unit.value.name != "" then unit.value.name
      else if item.Some? && item.value.unitId != 0 then IntToString(item.value.unitId)
      else "-";
    var listCell := if pl.Some? && pl.value.name != "" then pl.value.name else IntToString(ip.priceListId);
    var locationCell := if pl.Some? && pl.value.location != "" then pl.value.location else "-";
    var fromCell := if pl.Some? && pl.value.validFrom != "" then pl.value.validFrom else "-";
    var toCell := if pl.Some? && pl.value.validTo != "" then pl.value.validTo else "-";
    [itemCell, typeCell, unitCell, listCell, locationCell, fromCell, toCell, IntToString(ip.price)]
  }

  /** One row of the on-screen table: eight cells, the price last; a row
      whose item or price list is not loaded shows the id and dashes. */
  function TableRow(t: Tables, ip: ItemPrice): (r: seq<string>)
    ensures |r| == 8
    ensures r[7] == IntToString(ip.price)
    ensures Items.Lookup(t.items, ip.itemId).None? ==>
      r[0] == IntToString(ip.itemId) && r[1] == "-" && r[2] == "-"
    ensures PriceLists.Lookup(t.lists, ip.priceListId).None? ==>
      r[3] == IntToString(ip.priceListId) && r[4] == "-" && r[5] == "-" && r[6] == "-"
  {
    var item := Items.Lookup(t.items, ip.itemId);
    TableCells(item, PriceLists.Lookup(t.lists, ip.priceListId), UnitOf(t, item), ip)
  }

  /** Cell by cell, the table shows what the export holds. */
  lemma TableCellsMatchJoin(item: Option<Items.Item>, pl: Option<PriceLists.PriceList>, unit: Option<Units.Unit>,
                            ip: ItemPrice)
    requires item.None? ==> unit.None?
    ensures TableCells(item, pl, unit, ip) == RenderRow(JoinRow(item, pl, unit, ip))
  {
  }

  /** The table and the export use the same joins and fallbacks. */
  lemma TableRowMatchesExport(t: Tables, ip: ItemPrice)
    ensures TableRow(t, ip) == RenderRow(ExportRow(t, ip))
  {
    var item := Items.Lookup(t.items, ip.itemId);
    TableCellsMatchJoin(item, PriceLists.Lookup(t.lists, ip.priceListId), UnitOf(t, item), ip);
  }

  /** Every row of the table is the rendered export row. */
  lemma TableRowsMatchExport(t: Tables)
    ensures forall ip :: TableRow(t, ip) == RenderRow(ExportRow(t, ip))
  {
    forall ip: ItemPrice {
      TableRowMatchesExport(t, ip);
    }
  }

  /** `paginatedItemPrices`, rendered. */
  function VisibleTable(t: Tables, rows: seq<ItemPrice>, v: View): (r: seq<seq<string>>)
    ensures |r| <= Paging.PageSize
  {
    var start := (v.page - 1) * Paging.PageSize;
    var page := Paging.JsSlice(Search(t, rows, v.field, v.text), start, start + Paging.PageSize);
    Listing.Map(page, (ip: ItemPrice) => TableRow(t, ip))
  }

  /** The visible table is exactly the current page of the export. */
  lemma VisibleTableIsExportPage(t: Tables, rows: seq<ItemPrice>, v: View)
    ensures VisibleTable(t, rows, v) == Listing.Map(Paging.Visible(Export(t, rows, v.field, v.text), v.page), RenderRow)
  {
    var found := Search(t, rows, v.field, v.text);
    var toRow := (ip: ItemPrice) => ExportRow(t, ip);
    var toTable := (ip: ItemPrice) => TableRow(t, ip);
    var page := Paging.Visible(found, v.page);
    assert VisibleTable(t, rows, v) == Listing.Map(page, toTable);
    assert Export(t, rows, v.field, v.text) == Listing.Map(found, toRow);
    Paging.VisibleMap(found, toRow, v.page);
    TableRowsMatchExport(t);
    Listing.MapCompose(page, toRow, RenderRow, toTable);
  }

  /** Every exported row is shown: row `i` is at position `i % 10` of page
      `i / 10 + 1`, and that page exists. */
  lemma ExportRowOnItsPage(t: Tables, rows: seq<ItemPrice>, field: SearchField, text: string, i: int)
    requires 0 <= i < |Export(t, rows, field, text)|
    ensures 1 <= i / Paging.PageSize + 1 <= Paging.TotalPages(|Search(t, rows, field, text)|)
    ensures i % Paging.PageSize < |Paging.Visible(Export(t, rows, field, text), i / Paging.PageSize + 1)|
    ensures Paging.Visible(Export(t, rows, field, text), i / Paging.PageSize + 1)[i % Paging.PageSize]
      == ExportRow(t, Search(t, rows, field, text)[i])
  {
    Paging.RowOnItsPage(Export(t, rows, field, text), i);
  }

  /** Typing in the search box; the effect resets the page. */
  function SetText(v: View, text: string): (r: View)
    ensures r.page == 1 && r.text == text && r.field == v.field
  {
    Paging.WithText(v, text)
  }

  /** Choosing another field; the effect resets the page. */
  function SetField(v: View, field: SearchField): (r: View)
    ensures r.page == 1 && r.field == field && r.text == v.text
  {
    Paging.WithField(v, field, true)
  }

  function PageCount(t: Tables, rows: seq<ItemPrice>, v: View): nat {
    Paging.TotalPages(|Search(t, rows, v.field, v.text)|)
  }

  /** `handlePrevious`: `Math.max(prev - 1, 1)`. */
  function Previous(v: View): (r: View)
    ensures r.field == v.field && r.text == v.text
    ensures r.page >= 1
    ensures v.page > 1 ==> r.page == v.page - 1
    ensures v.page <= 1 ==> r.page == 1
  {
    v.(page := Paging.ClampBack(v.page))
  }

  /** `handleNext`: `Math.min(prev + 1, totalPages)`. */
  function Next(t: Tables, rows: seq<ItemPrice>, v: View): (r: View)
    ensures r.field == v.field && r.text == v.text
    ensures r.page <= PageCount(t, rows, v)
    ensures v.page >= PageCount(t, rows, v) ==> r.page == PageCount(t, rows, v)
    ensures Paging.InRange(v.page, PageCount(t, rows, v)) && Paging.ForwardEnabled(v.page, PageCount(t, rows, v)) ==>
      r.page == v.page + 1 && Paging.InRange(r.page, PageCount(t, rows, r))
  {
    v.(page := Paging.ClampForward(v.page, PageCount(t, rows, v)))
  }
}
