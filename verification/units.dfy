/** The Units page: the loaded units, searched by id, name or symbol,
    shown ten per page, edited through a name/symbol form. */
module Units {
  import opened Wrappers
  import opened Text
  import opened Js
  import Listing
  import Paging
  import Crud

  datatype Unit = Unit(id: int, name: string, symbol: string)

  datatype SearchField = ById | ByName | BySymbol

  /** `Partial<Unit>` as the form holds it: each field may be missing. */
  datatype Form = Form(name: Value, symbol: Value)

  /** The body of the PUT/POST request. */
  datatype Payload = Payload(name: Value, symbol: Value)

  type Editor = Crud.Editor<Unit, Form>
  type View = Paging.View<SearchField>

  const Blank: Form := Form(Undefined, Undefined)

  function IdOf(u: Unit): int {
    u.id
  }

  /** The form `handleEdit` fills from a row. */
  function FormOf(u: Unit): Form {
    Form(Str(u.name), Str(u.symbol))
  }

  /** The text of the chosen field that the search looks into. */
  function FieldText(u: Unit, field: SearchField): string {
    match field
    case ById => IntToString(u.id)
    case ByName => Lower(u.name)
    case BySymbol => Lower(u.symbol)
  }

  predicate Matches(u: Unit, field: SearchField, text: string) {
    Contains(FieldText(u, field), Lower(text))
  }

  /** `filteredUnits`. */
  function Search(units: seq<Unit>, field: SearchField, text: string): (r: seq<Unit>)
    ensures |r| <= |units|
    ensures forall u :: u in r <==> u in units && Matches(u, field, text)
  {
    Listing.Filter(units, (u: Unit) => Matches(u, field, text))
  }

  /** A unit is found iff the lower-cased search text occurs in the chosen
      field (the id's decimal form for the ID field); every match keeps its
      multiplicity and the order of the loaded list. */
  lemma SearchSelects(units: seq<Unit>, field: SearchField, text: string)
    ensures forall u :: u in Search(units, field, text) <==>
      u in units && Occurs(FieldText(u, field), Lower(text))
    ensures forall u :: Occurs(FieldText(u, field), Lower(text)) ==>
      multiset(Search(units, field, text))[u] == multiset(units)[u]
    ensures Listing.Subsequence(Search(units, field, text), units)
  {
    forall u: Unit {
      ContainsIffOccurs(FieldText(u, field), Lower(text));
    }
    Listing.FilterIsSubsequence(units, (u: Unit) => Matches(u, field, text));
  }

  /** An empty search shows the whole list. */
  lemma EmptySearchKeepsAll(units: seq<Unit>, field: SearchField)
    ensures Search(units, field, "") == units
  {
    Listing.FilterKeepsAll(units, (u: Unit) => Matches(u, field, ""));
  }

  /** Save's check and payload: both fields must be truthy, and exactly
      those two fields are sent. */
  function PayloadOf(f: Form): (p: Option<Payload>)
    ensures p.Some? <==> Truthy(f.name) && Truthy(f.symbol)
    ensures p.Some? ==> p.value == Payload(f.name, f.symbol)
  {
    if !Truthy(f.name) || !Truthy(f.symbol) then None else Some(Payload(f.name, f.symbol))
  }

  /** `handleSave`. */
  function Save(e: Editor, reply: Crud.Reply<Unit>): (r: Crud.SaveStep<Unit, Form, Payload>)
    ensures !Truthy(e.form.name) || !Truthy(e.form.symbol) ==>
      r.sent.None? && r.next == e && r.alert == Some(Crud.FieldsRequired)
    ensures r.sent.Some? ==> r.sent.value.payload == Payload(e.form.name, e.form.symbol)
    ensures r.sent.Some? ==> (r.sent.value.Put? <==> e.editId.Some?)
    ensures r.sent.Some? && r.sent.value.Put? ==> r.sent.value.id == e.editId.value
    ensures PayloadOf(e.form).Some? ==> r.sent.Some?
    ensures PayloadOf(e.form).Some? && reply.Answered? ==>
      r.next.rows == Crud.Merge(e.rows, e.editId, reply.data, IdOf) && r.next.form == Blank && r.next.editId.None?
    ensures reply.Failed? ==> r.next == e
  {
    Crud.Save(e, PayloadOf(e.form), reply, IdOf, Blank)
  }

  /** `handleEdit`: the unit's name and symbol fill the form and its id
      becomes the edit target. */
  function Edit(e: Editor, u: Unit): (r: Editor)
    ensures r.rows == e.rows && r.editId == Some(u.id) && r.isAdding
    ensures r.form.name == Str(u.name) && r.form.symbol == Str(u.symbol)
  {
    Crud.Edit(e, u, FormOf, IdOf)
  }

  /** Saving an edited unit unchanged PUTs its own name and symbol to its
      id, unless one of them is empty. */
  lemma EditedRowIsResent(e: Editor, u: Unit, reply: Crud.Reply<Unit>)
    ensures Save(Edit(e, u), reply).sent.Some? <==> u.name != "" && u.symbol != ""
    ensures Save(Edit(e, u), reply).sent.Some? ==>
      Save(Edit(e, u), reply).sent.value == Crud.Put(u.id, Payload(Str(u.name), Str(u.symbol)))
  {
  }

  /** `handleDelete`. */
  function Delete(e: Editor, id: int, confirmed: bool): (r: Editor)
    ensures forall u :: u in r.rows <==> u in e.rows && (!confirmed || u.id != id)
  {
    Crud.Delete(e, id, confirmed, IdOf)
  }

  function PageCount(units: seq<Unit>, v: View): nat {
    Paging.TotalPages(|Search(units, v.field, v.text)|)
  }

  /** `paginatedUnits`. */
  function VisibleRows(units: seq<Unit>, v: View): (r: seq<Unit>)
    ensures |r| <= Paging.PageSize
    ensures forall u :: u in r ==> u in units && Matches(u, v.field, v.text)
  {
    Paging.Visible(Search(units, v.field, v.text), v.page)
  }

  /** `handlePrevious`, guarded by `currentPage > 1`. */
  function Previous(units: seq<Unit>, v: View): (r: View)
    ensures r.field == v.field && r.text == v.text
    ensures Paging.InRange(v.page, PageCount(units, v)) ==> Paging.InRange(r.page, PageCount(units, r))
    ensures v.page > 1 ==> r.page == v.page - 1
    ensures v.page <= 1 ==> r.page == v.page
  {
    v.(page := Paging.StepBack(v.page))
  }

  /** `handleNext`, guarded by `currentPage < totalPages`. */
  function Next(units: seq<Unit>, v: View): (r: View)
    ensures r.field == v.field && r.text == v.text
    ensures Paging.InRange(v.page, PageCount(units, v)) ==> Paging.InRange(r.page, PageCount(units, r))
    ensures v.page < PageCount(units, v) ==> r.page == v.page + 1
    ensures v.page >= PageCount(units, v) ==> r.page == v.page
  {
    v.(page := Paging.StepForward(v.page, PageCount(units, v)))
  }

  /** Typing in the search box resets the page to 1. */
  function SetText(v: View, text: string): (r: View)
    ensures r.page == 1 && r.text == text && r.field == v.field
  {
    Paging.WithText(v, text)
  }

  /** Choosing another field keeps the current page. */
  function SetField(v: View, field: SearchField): (r: View)
    ensures r.page == v.page && r.text == v.text && r.field == field
  {
    Paging.WithField(v, field, false)
  }

  /** `units.find(u => u.unit_id === id)`: the first unit with that id. */
  function Lookup(units: seq<Unit>, id: int): (r: Option<Unit>)
    ensures r.None? <==> forall j :: 0 <= j < |units| ==> units[j].id != id
    ensures r.Some? ==> r.value in units && r.value.id == id
    ensures forall j :: 0 <= j < |units| && units[j].id == id && Listing.UniqueKeys(units, IdOf) ==>
      r == Some(units[j])
  {
    Listing.FindByKey(units, IdOf, id)
  }
}
