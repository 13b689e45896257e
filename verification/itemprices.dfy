/** The Item Prices page: prices searched by id or by the loaded price
    list / item they point to; the page goes back to 1 whenever the
    search or the list itself changes. */
module ItemPrices {
  import opened Wrappers
  import opened Text
  import opened Js
  import Listing
  import Paging
  import Crud
  import Items
  import PriceLists

  /** Prices are modelled as integers. */
  datatype ItemPrice = ItemPrice(id: int, priceListId: int, itemId: int, price: int)

  datatype SearchField = ById | ByPriceList | ByItem

  /** `Partial<ItemPrice>`: the form holds parsed numbers, `undefined`, or NaN. */
  datatype Form = Form(priceListId: Value, itemId: Value, price: Value)

  /** The form fields `handleInputChange` can write. */
  datatype FormField = PriceListInput | ItemInput | PriceInput

  /** The body of the PUT/POST request. */
  datatype Payload = Payload(priceListId: Value, itemId: Value, price: Value)

  type Editor = Crud.Editor<ItemPrice, Form>
  type View = Paging.View<SearchField>

  /** The page's state: the list and form, and the search and page. */
  datatype Screen = Screen(editor: Editor, view: View)

  /** One Save: the screen after it, the request sent and the alert raised. */
  datatype SaveResult = SaveResult(next: Screen, sent: Option<Crud.Request<Payload>>, alert: Option<Crud.Alert>)

  const Blank: Form := Form(Undefined, Undefined, Undefined)

  function IdOf(ip: ItemPrice): int {
    ip.id
  }

  /** The form `handleEdit` fills from a row. */
  function FormOf(ip: ItemPrice): Form {
    Form(Num(ip.priceListId), Num(ip.itemId), Num(ip.price))
  }

  /** `handleInputChange`: the price box is parsed as a number (modelled
      with the integer parser); an id select set to "" clears the field,
      any other value goes through `parseInt`. */
  function Input(f: Form, field: FormField, value: string): (r: Form)
    ensures field == PriceInput ==> r == f.(price := ParseInt(value))
    ensures field == PriceListInput ==> r.itemId == f.itemId && r.price == f.price
    ensures field == ItemInput ==> r.priceListId == f.priceListId && r.price == f.price
    ensures field == PriceListInput ==> (r.priceListId.Undefined? <==> value == "")
    ensures field == ItemInput ==> (r.itemId.Undefined? <==> value == "")
    ensures field == PriceInput ==> !r.price.Undefined?
  {
    var parsed := if value == "" then Undefined else ParseInt(value);
    match field
    case PriceInput => f.(price := ParseInt(value))
    case PriceListInput => f.(priceListId := parsed)
    case ItemInput => f.(itemId := parsed)
  }

  /** Choosing an option whose value is a loaded id puts that id in the form. */
  lemma SelectStoresId(f: Form, id: int)
    ensures Input(f, PriceListInput, IntToString(id)).priceListId == Num(id)
    ensures Input(f, ItemInput, IntToString(id)).itemId == Num(id)
  {
    ParseIntRoundTrip(id);
  }

  /** The text-search test for one row. The price-list and item fields look
      the row's reference up first and never match when it is not loaded. */
  predicate Matches(items: seq<Items.Item>, lists: seq<PriceLists.PriceList>, ip: ItemPrice,
                    field: SearchField, text: string)
  {
    var v := Lower(text);
    match field
    case ById => Contains(IntToString(ip.id), v)
    case ByPriceList =>
      (match PriceLists.Lookup(lists, ip.priceListId)
       case Some(pl) => Contains(Lower(pl.name), v) || Contains(IntToString(ip.priceListId), v)
       case None => false)
    case ByItem =>
      (match Items.Lookup(items, ip.itemId)
       case Some(item) => Contains(Lower(item.name), v) || Contains(IntToString(ip.itemId), v)
       case None => false)
  }

  /** `filteredItemPrices`. */
  function Search(items: seq<Items.Item>, lists: seq<PriceLists.PriceList>, rows: seq<ItemPrice>,
                  field: SearchField, text: string): (r: seq<ItemPrice>)
    ensures |r| <= |rows|
    ensures forall ip :: ip in r <==> ip in rows && Matches(items, lists, ip, field, text)
  {
    Listing.Filter(rows, (ip: ItemPrice) => Matches(items, lists, ip, field, text))
  }

  /** The reference meaning of a match, in terms of occurrences. */
  ghost predicate Selected(items: seq<Items.Item>, lists: seq<PriceLists.PriceList>, ip: ItemPrice,
                           field: SearchField, text: string)
  {
    var v := Lower(text);
    match field
    case ById => Occurs(IntToString(ip.id), v)
    case ByPriceList =>
      exists pl :: PriceLists.Lookup(lists, ip.priceListId) == Some(pl) &&
        (Occurs(Lower(pl.name), v) || Occurs(IntToString(ip.priceListId), v))
    case ByItem =>
      exists item :: Items.Lookup(items, ip.itemId) == Some(item) &&
        (Occurs(Lower(item.name), v) || Occurs(IntToString(ip.itemId), v))
  }

  lemma MatchesIffSelected(items: seq<Items.Item>, lists: seq<PriceLists.PriceList>, ip: ItemPrice,
                           field: SearchField, text: string)
    ensures Matches(items, lists, ip, field, text) <==> Selected(items, lists, ip, field, text)
  {
    var v := Lower(text);
    ContainsIffOccurs(IntToString(ip.id), v);
    ContainsIffOccurs(IntToString(ip.priceListId), v);
    ContainsIffOccurs(IntToString(ip.itemId), v);
    var pl := PriceLists.Lookup(lists, ip.priceListId);
    if pl.Some? {
      ContainsIffOccurs(Lower(pl.value.name), v);
    }
    var item := Items.Lookup(items, ip.itemId);
    if item.Some? {
      ContainsIffOccurs(Lower(item.value.name), v);
    }
  }

  /** A row is found iff it is selected in the reference sense; matches keep their order. */
  lemma SearchSelects(items: seq<Items.Item>, lists: seq<PriceLists.PriceList>, rows: seq<ItemPrice>,
                      field: SearchField, text: string)
    ensures forall ip :: ip in Search(items, lists, rows, field, text) <==>
      ip in rows && Selected(items, lists, ip, field, text)
    ensures Listing.Subsequence(Search(items, lists, rows, field, text), rows)
  {
    forall ip: ItemPrice {
      MatchesIffSelected(items, lists, ip, field, text);
    }
    Listing.FilterIsSubsequence(rows, (ip: ItemPrice) => Matches(items, lists, ip, field, text));
  }

  /** A row whose price list (item) is not loaded never matches the
      price-list (item) search, not even the empty search. */
  lemma UnloadedNeverMatches(items: seq<Items.Item>, lists: seq<PriceLists.PriceList>, ip: ItemPrice, text: string)
    ensures (forall j :: 0 <= j < |lists| ==> lists[j].id != ip.priceListId) ==>
      !Matches(items, lists, ip, ByPriceList, text)
    ensures (forall j :: 0 <= j < |items| ==> items[j].id != ip.itemId) ==>
      !Matches(items, lists, ip, ByItem, text)
  {
  }

  /** Save's check and payload: both ids must be truthy (so missing, 0 and
      NaN are refused) and the price must not be `undefined`. */
  function PayloadOf(f: Form): (p: Option<Payload>)
    ensures p.None? <==> !Truthy(f.priceListId) || !Truthy(f.itemId) || f.price.Undefined?
    ensures p.Some? ==> p.value == Payload(f.priceListId, f.itemId, f.price)
  {
    if !Truthy(f.priceListId) || !Truthy(f.itemId) || f.price.Undefined? then None
    else Some(Payload(f.priceListId, f.itemId, f.price))
  }

  /** Once the price box has been touched the price check always passes,
      even when the box was cleared (the price is then NaN). */
  lemma TouchedPriceIsSent(f: Form, value: string)
    requires Truthy(f.priceListId) && Truthy(f.itemId)
    ensures PayloadOf(Input(f, PriceInput, value)).Some?
    ensures value == "" ==> PayloadOf(Input(f, PriceInput, value)).value.price == NaN
  {
  }

  /** The server reply is written into the list (and so the page resets). */
  predicate ListWritten(e: Editor, reply: Crud.Reply<ItemPrice>) {
    PayloadOf(e.form).Some? && reply.Answered? && Crud.Stored(reply.data, IdOf)
  }

  /** `handleSave`, followed by the effect that resets the page when the
      list was written. */
  function Save(s: Screen, reply: Crud.Reply<ItemPrice>): (r: SaveResult)
    ensures !Truthy(s.editor.form.priceListId) || !Truthy(s.editor.form.itemId) || s.editor.form.price.Undefined? ==>
      r.sent.None? && r.next == s && r.alert == Some(Crud.FieldsRequired)
    ensures r.sent.Some? ==>
      r.sent.value.payload == Payload(s.editor.form.priceListId, s.editor.form.itemId, s.editor.form.price)
    ensures r.sent.Some? ==> (r.sent.value.Put? <==> s.editor.editId.Some?)
    ensures r.sent.Some? && r.sent.value.Put? ==> r.sent.value.id == s.editor.editId.value
    ensures PayloadOf(s.editor.form).Some? ==> r.sent.Some?
    ensures PayloadOf(s.editor.form).Some? && reply.Answered? ==>
      && r.next.editor.rows == Crud.Merge(s.editor.rows, s.editor.editId, reply.data, IdOf)
      && r.next.editor.form == Blank && r.next.editor.editId.None?
    ensures reply.Failed? ==> r.next == s
    ensures r.next.view.page == if ListWritten(s.editor, reply) then 1 else s.view.page
    ensures r.next.view.field == s.view.field && r.next.view.text == s.view.text
    ensures forall ip :: ip in s.editor.rows && (s.editor.editId.None? || ip.id != s.editor.editId.value) ==>
      ip in r.next.editor.rows
  {
    var step := Crud.Save(s.editor, PayloadOf(s.editor.form), reply, IdOf, Blank);
    var view := if ListWritten(s.editor, reply) then s.view.(page := 1) else s.view;
    SaveResult(Screen(step.next, view), step.sent, step.alert)
  }

  /** `handleEdit`: the item price's numbers fill the form and its id
      becomes the edit target; the list, and so the page, is untouched. */
  function Edit(s: Screen, ip: ItemPrice): (r: Screen)
    ensures r.view == s.view && r.editor.rows == s.editor.rows
    ensures r.editor.editId == Some(ip.id) && r.editor.isAdding
    ensures r.editor.form == Form(Num(ip.priceListId), Num(ip.itemId), Num(ip.price))
  {
    Screen(Crud.Edit(s.editor, ip, FormOf, IdOf), s.view)
  }

  /** Saving an edited item price unchanged PUTs its own values to its id,
      unless its price list or item id is 0. */
  lemma EditedRowIsResent(s: Screen, ip: ItemPrice, reply: Crud.Reply<ItemPrice>)
    ensures Save(Edit(s, ip), reply).sent.Some? <==> ip.priceListId != 0 && ip.itemId != 0
    ensures Save(Edit(s, ip), reply).sent.Some? ==>
      Save(Edit(s, ip), reply).sent.value == Crud.Put(ip.id, Payload(Num(ip.priceListId), Num(ip.itemId), Num(ip.price)))
  {
  }

  /** `handleDelete`; a confirmed delete writes the list, so the page resets. */
  function Delete(s: Screen, id: int, confirmed: bool): (r: Screen)
    ensures forall ip :: ip in r.editor.rows <==> ip in s.editor.rows && (!confirmed || ip.id != id)
    ensures r.view.page == if confirmed then 1 else s.view.page
  {
    Screen(Crud.Delete(s.editor, id, confirmed, IdOf), if confirmed then s.view.(page := 1) else s.view)
  }

  /** The list fetched on mount arrives; the page resets. */
  function Load(s: Screen, rows: seq<ItemPrice>): (r: Screen)
    ensures r.editor.rows == rows && r.view.page == 1
  {
    Screen(s.editor.(rows := rows), s.view.(page := 1))
  }

  /** Typing in the search box; the effect resets the page. */
  function SetText(s: Screen, text: string): (r: Screen)
    ensures r.view.page == 1 && r.view.text == text && r.editor == s.editor
  {
    Screen(s.editor, Paging.WithText(s.view, text))
  }

  /** Choosing another field; the effect resets the page here too. */
  function SetField(s: Screen, field: SearchField): (r: Screen)
    ensures r.view.page == 1 && r.view.field == field && r.editor == s.editor
  {
    Screen(s.editor, Paging.WithField(s.view, field, true))
  }

  function PageCount(items: seq<Items.Item>, lists: seq<PriceLists.PriceList>, s: Screen): nat {
    Paging.TotalPages(|Search(items, lists, s.editor.rows, s.view.field, s.view.text)|)
  }

  /** `currentItems`: `slice(startIndex, startIndex + 10)`, the same rows as
      the other pages' `slice((page - 1) * 10, page * 10)`. */
  function VisibleRows(items: seq<Items.Item>, lists: seq<PriceLists.PriceList>, s: Screen): (r: seq<ItemPrice>)
    ensures r == Paging.Visible(Search(items, lists, s.editor.rows, s.view.field, s.view.text), s.view.page)
    ensures |r| <= Paging.PageSize
  {
    var start := (s.view.page - 1) * Paging.PageSize;
    Paging.JsSlice(Search(items, lists, s.editor.rows, s.view.field, s.view.text), start, start + Paging.PageSize)
  }

  /** `handlePrevious`, guarded by `currentPage > 1`. */
  function Previous(items: seq<Items.Item>, lists: seq<PriceLists.PriceList>, s: Screen): (r: Screen)
    ensures r.editor == s.editor && r.view.field == s.view.field && r.view.text == s.view.text
    ensures Paging.InRange(s.view.page, PageCount(items, lists, s)) ==>
      Paging.InRange(r.view.page, PageCount(items, lists, r))
    ensures s.view.page > 1 ==> r.view.page == s.view.page - 1
    ensures s.view.page <= 1 ==> r.view.page == s.view.page
  {
    Screen(s.editor, s.view.(page := Paging.StepBack(s.view.page)))
  }

  /** `handleNext`, guarded by `currentPage < totalPages`. */
  function Next(items: seq<Items.Item>, lists: seq<PriceLists.PriceList>, s: Screen): (r: Screen)
    ensures r.editor == s.editor && r.view.field == s.view.field && r.view.text == s.view.text
    ensures Paging.InRange(s.view.page, PageCount(items, lists, s)) ==>
      Paging.InRange(r.view.page, PageCount(items, lists, r))
    ensures s.view.page < PageCount(items, lists, s) ==> r.view.page == s.view.page + 1
    ensures s.view.page >= PageCount(items, lists, s) ==> r.view.page == s.view.page
  {
    Screen(s.editor, s.view.(page := Paging.StepForward(s.view.page, PageCount(items, lists, s))))
  }
}
