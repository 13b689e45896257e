/** The Items page: items searched by id, name or type, shown ten per
    page with their unit's name, edited through a four-field form. */
module Items {
  import opened Wrappers
  import opened Text
  import opened Js
  import Listing
  import Paging
  import Crud
  import Units

  datatype Item = Item(id: int, name: string, itemType: string, unitId: int, description: string)

  datatype SearchField = ById | ByName | ByType

  /** `Partial<Item>` as the form holds it. */
  datatype Form = Form(name: Value, itemType: Value, unitId: Value, description: Value)

  /** The body of the PUT/POST request: the four writable fields. */
  datatype Payload = Payload(name: Value, itemType: Value, unitId: Value, description: Value)

  type Editor = Crud.Editor<Item, Form>
  type View = Paging.View<SearchField>

  const Blank: Form := Form(Undefined, Undefined, Undefined, Undefined)

  /** The item types the form's select offers. */
  const ItemTypes: seq<string> := ["Materials", "Labors", "Tools", "Machineries"]

  /** The options of the type select, the "Select Type" placeholder first. */
  const TypeOptions: seq<string> := [""] + ItemTypes

  function IdOf(i: Item): int {
    i.id
  }

  /** The form `handleEdit` fills from a row. */
  function FormOf(i: Item): Form {
    Form(Str(i.name), Str(i.itemType), Num(i.unitId), Str(i.description))
  }

  /** Picking option `k` of the type select. */
  function ChooseType(f: Form, k: nat): (r: Form)
    requires k < |TypeOptions|
    ensures r.name == f.name && r.unitId == f.unitId && r.description == f.description
    ensures Truthy(r.itemType) <==> k > 0
    ensures r.itemType.Str? && (Truthy(r.itemType) ==> r.itemType.s in ItemTypes)
  {
    f.(itemType := Str(TypeOptions[k]))
  }

  /** Picking the unit select's option `k`: 0 is "Select Unit", option
      `k > 0` carries the decimal id of the `k`-th loaded unit. */
  function ChooseUnit(f: Form, units: seq<Units.Unit>, k: nat): (r: Form)
    requires k <= |units|
    ensures r.name == f.name && r.itemType == f.itemType && r.description == f.description
    ensures Truthy(r.unitId) <==> k > 0
    ensures k > 0 ==> ToNumber(r.unitId) == Num(units[k - 1].id)
  {
    if k == 0 then f.(unitId := Str(""))
    else
      StringToNumberRoundTrip(units[k - 1].id);
      f.(unitId := Str(IntToString(units[k - 1].id)))
  }

  /** A Save the form check lets through carries an item type from the
      fixed set, as long as the type was picked from the select. */
  lemma SavedTypeIsListed(f: Form, k: nat)
    requires k < |TypeOptions|
    requires PayloadOf(ChooseType(f, k)).Some?
    ensures PayloadOf(ChooseType(f, k)).value.itemType.s in ItemTypes
  {
  }

  /** The text of the chosen field that the search looks into. */
  function FieldText(i: Item, field: SearchField): string {
    match field
    case ById => IntToString(i.id)
    case ByName => Lower(i.name)
    case ByType => Lower(i.itemType)
  }

  predicate Matches(i: Item, field: SearchField, text: string) {
    Contains(FieldText(i, field), Lower(text))
  }

  /** `filteredItems`. */
  function Search(items: seq<Item>, field: SearchField, text: string): (r: seq<Item>)
    ensures |r| <= |items|
    ensures forall i :: i in r <==> i in items && Matches(i, field, text)
  {
    Listing.Filter(items, (i: Item) => Matches(i, field, text))
  }

  /** An item is found iff the lower-cased search text occurs in the
      chosen field; matches keep their multiplicity and order. */
  lemma SearchSelects(items: seq<Item>, field: SearchField, text: string)
    ensures forall i :: i in Search(items, field, text) <==>
      i in items && Occurs(FieldText(i, field), Lower(text))
    ensures forall i :: Occurs(FieldText(i, field), Lower(text)) ==>
      multiset(Search(items, field, text))[i] == multiset(items)[i]
    ensures Listing.Subsequence(Search(items, field, text), items)
  {
    forall i: Item {
      ContainsIffOccurs(FieldText(i, field), Lower(text));
    }
    Listing.FilterIsSubsequence(items, (i: Item) => Matches(i, field, text));
  }

  /** An empty search shows the whole list. */
  lemma EmptySearchKeepsAll(items: seq<Item>, field: SearchField)
    ensures Search(items, field, "") == items
  {
    Listing.FilterKeepsAll(items, (i: Item) => Matches(i, field, ""));
  }

  /** Save's check and payload: all four fields must be truthy, and they
      are sent unchanged. */
  function PayloadOf(f: Form): (p: Option<Payload>)
    ensures p.Some? <==> Truthy(f.name) && Truthy(f.itemType) && Truthy(f.unitId) && Truthy(f.description)
    ensures p.Some? ==> p.value == Payload(f.name, f.itemType, f.unitId, f.description)
  {
    if !Truthy(f.name) || !Truthy(f.itemType) || !Truthy(f.unitId) || !Truthy(f.description) then None
    else Some(Payload(f.name, f.itemType, f.unitId, f.description))
  }

  /** `handleSave`. */
  function Save(e: Editor, reply: Crud.Reply<Item>): (r: Crud.SaveStep<Item, Form, Payload>)
    ensures !(Truthy(e.form.name) && Truthy(e.form.itemType) && Truthy(e.form.unitId) && Truthy(e.form.description)) ==>
      r.sent.None? && r.next == e && r.alert == Some(Crud.FieldsRequired)
    ensures r.sent.Some? ==>
      r.sent.value.payload == Payload(e.form.name, e.form.itemType, e.form.unitId, e.form.description)
    ensures r.sent.Some? ==> (r.sent.value.Put? <==> e.editId.Some?)
    ensures r.sent.Some? && r.sent.value.Put? ==> r.sent.value.id == e.editId.value
    ensures PayloadOf(e.form).Some? ==> r.sent.Some?
    ensures PayloadOf(e.form).Some? && reply.Answered? ==>
      r.next.rows == Crud.Merge(e.rows, e.editId, reply.data, IdOf) && r.next.form == Blank && r.next.editId.None?
    ensures reply.Failed? ==> r.next == e
  {
    Crud.Save(e, PayloadOf(e.form), reply, IdOf, Blank)
  }

  /** `handleEdit`: the item's fields fill the form and its id becomes the
      edit target. */
  function Edit(e: Editor, i: Item): (r: Editor)
    ensures r.rows == e.rows && r.editId == Some(i.id) && r.isAdding
    ensures r.form.name == Str(i.name) && r.form.itemType == Str(i.itemType)
    ensures r.form.unitId == Num(i.unitId) && r.form.description == Str(i.description)
  {
    Crud.Edit(e, i, FormOf, IdOf)
  }

  /** Saving an edited item unchanged PUTs its own four fields to its id,
      unless one of them is empty (or the unit id is 0). */
  lemma EditedRowIsResent(e: Editor, i: Item, reply: Crud.Reply<Item>)
    ensures Save(Edit(e, i), reply).sent.Some? <==>
      i.name != "" && i.itemType != "" && i.unitId != 0 && i.description != ""
    ensures Save(Edit(e, i), reply).sent.Some? ==>
      Save(Edit(e, i), reply).sent.value ==
        Crud.Put(i.id, Payload(Str(i.name), Str(i.itemType), Num(i.unitId), Str(i.description)))
  {
  }

  /** `handleDelete`. */
  function Delete(e: Editor, id: int, confirmed: bool): (r: Editor)
    ensures forall i :: i in r.rows <==> i in e.rows && (!confirmed || i.id != id)
  {
    Crud.Delete(e, id, confirmed, IdOf)
  }

  /** The Unit column: the name of the first unit with the item's unit id,
      or the raw unit id when no unit matches or its name is empty. */
  function UnitCell(units: seq<Units.Unit>, item: Item): (r: string)
    ensures (forall j :: 0 <= j < |units| ==> units[j].id != item.unitId) ==> r == IntToString(item.unitId)
    ensures r == IntToString(item.unitId) || exists u :: u in units && u.id == item.unitId && r == u.name
    ensures Listing.UniqueKeys(units, Units.IdOf) ==>
      forall j :: 0 <= j < |units| && units[j].id == item.unitId && units[j].name != "" ==> r == units[j].name
    ensures Listing.UniqueKeys(units, Units.IdOf) ==>
      forall j :: 0 <= j < |units| && units[j].id == item.unitId && units[j].name == "" ==> r == IntToString(item.unitId)
  {
    var name := match Units.Lookup(units, item.unitId)
      case Some(u) => Str(u.name)
      case None => Undefined;
    Render(Or(name, Num(item.unitId)))
  }

  /** `units.find(...)`-style lookup of an item by id, used by the pages
      that join against items. */
  function Lookup(items: seq<Item>, id: int): (r: Option<Item>)
    ensures r.None? <==> forall j :: 0 <= j < |items| ==> items[j].id != id
    ensures r.Some? ==> r.value in items && r.value.id == id
    ensures forall j :: 0 <= j < |items| && items[j].id == id && Listing.UniqueKeys(items, IdOf) ==>
      r == Some(items[j])
  {
    Listing.FindByKey(items, IdOf, id)
  }

  function PageCount(items: seq<Item>, v: View): nat {
    Paging.TotalPages(|Search(items, v.field, v.text)|)
  }

  /** `paginatedItems`. */
  function VisibleRows(items: seq<Item>, v: View): (r: seq<Item>)
    ensures |r| <= Paging.PageSize
    ensures forall i :: i in r ==> i in items && Matches(i, v.field, v.text)
  {
    Paging.Visible(Search(items, v.field, v.text), v.page)
  }

  /** `handlePrevious`, guarded by `currentPage > 1`. */
  function Previous(items: seq<Item>, v: View): (r: View)
    ensures r.field == v.field && r.text == v.text
    ensures Paging.InRange(v.page, PageCount(items, v)) ==> Paging.InRange(r.page, PageCount(items, r))
    ensures v.page > 1 ==> r.page == v.page - 1
    ensures v.page <= 1 ==> r.page == v.page
  {
    v.(page := Paging.StepBack(v.page))
  }

  /** `handleNext`, guarded by `currentPage < totalPages`. */
  function Next(items: seq<Item>, v: View): (r: View)
    ensures r.field == v.field && r.text == v.text
    ensures Paging.InRange(v.page, PageCount(items, v)) ==> Paging.InRange(r.page, PageCount(items, r))
    ensures v.page < PageCount(items, v) ==> r.page == v.page + 1
    ensures v.page >= PageCount(items, v) ==> r.page == v.page
  {
    v.(page := Paging.StepForward(v.page, PageCount(items, v)))
  }

  /** Typing in the search box resets the page to 1. */
  function SetText(v: View, text: string): (r: View)
    ensures r.page == 1 && r.text == text && r.field == v.field
  {
    Paging.WithText(v, text)
  }
}
