/** The Price Lists page: price lists searched by id, name or location,
    shown ten per page, with clamped Previous/Next buttons. */
module PriceLists {
  import opened Wrappers
  import opened Text
  import opened Js
  import Listing
  import Paging
  import Crud

  /** Dates are kept as the strings the server sends. */
  datatype PriceList = PriceList(id: int, name: string, location: string, validFrom: string, validTo: string)

  datatype SearchField = ById | ByName | ByLocation

  /** `Partial<PriceList>` as the form holds it. */
  datatype Form = Form(name: Value, location: Value, validFrom: Value, validTo: Value)

  /** The body of the PUT/POST request. */
  datatype Payload = Payload(name: Value, location: Value, validFrom: Value, validTo: Value)

  type Editor = Crud.Editor<PriceList, Form>
  type View = Paging.View<SearchField>

  const Blank: Form := Form(Undefined, Undefined, Undefined, Undefined)

  function IdOf(p: PriceList): int {
    p.id
  }

  /** The form `handleEdit` fills from a row. */
  function FormOf(p: PriceList): Form {
    Form(Str(p.name), Str(p.location), Str(p.validFrom), Str(p.validTo))
  }

  /** The text of the chosen field that the search looks into. */
  function FieldText(p: PriceList, field: SearchField): string {
    match field
    case ById => IntToString(p.id)
    case ByName => Lower(p.name)
    case ByLocation => Lower(p.location)
  }

  predicate Matches(p: PriceList, field: SearchField, text: string) {
    Contains(FieldText(p, field), Lower(text))
  }

  /** `filteredPriceLists`. */
  function Search(lists: seq<PriceList>, field: SearchField, text: string): (r: seq<PriceList>)
    ensures |r| <= |lists|
    ensures forall p :: p in r <==> p in lists && Matches(p, field, text)
  {
    Listing.Filter(lists, (p: PriceList) => Matches(p, field, text))
  }

  /** A price list is found iff the lower-cased search text occurs in the
      chosen field; matches keep their multiplicity and order. */
  lemma SearchSelects(lists: seq<PriceList>, field: SearchField, text: string)
    ensures forall p :: p in Search(lists, field, text) <==>
      p in lists && Occurs(FieldText(p, field), Lower(text))
    ensures forall p :: Occurs(FieldText(p, field), Lower(text)) ==>
      multiset(Search(lists, field, text))[p] == multiset(lists)[p]
    ensures Listing.Subsequence(Search(lists, field, text), lists)
  {
    forall p: PriceList {
      ContainsIffOccurs(FieldText(p, field), Lower(text));
    }
    Listing.FilterIsSubsequence(lists, (p: PriceList) => Matches(p, field, text));
  }

  /** Save's check and payload: all four fields must be truthy; the dates
      are not compared with each other. */
  function PayloadOf(f: Form): (p: Option<Payload>)
    ensures p.Some? <==> Truthy(f.name) && Truthy(f.location) && Truthy(f.validFrom) && Truthy(f.validTo)
    ensures p.Some? ==> p.value == Payload(f.name, f.location, f.validFrom, f.validTo)
  {
    if !Truthy(f.name) || !Truthy(f.location) || !Truthy(f.validFrom) || !Truthy(f.validTo) then None
    else Some(Payload(f.name, f.location, f.validFrom, f.validTo))
  }

  /** A price list whose validity ends before it starts is still accepted. */
  lemma DatesNotOrdered()
    ensures PayloadOf(Form(Str("Q1"), Str("Site"), Str("2024-12-31"), Str("2024-01-01"))).Some?
  {
  }

  /** `handleSave`. */
  function Save(e: Editor, reply: Crud.Reply<PriceList>): (r: Crud.SaveStep<PriceList, Form, Payload>)
    ensures !(Truthy(e.form.name) && Truthy(e.form.location) && Truthy(e.form.validFrom) && Truthy(e.form.validTo)) ==>
      r.sent.None? && r.next == e && r.alert == Some(Crud.FieldsRequired)
    ensures r.sent.Some? ==>
      r.sent.value.payload == Payload(e.form.name, e.form.location, e.form.validFrom, e.form.validTo)
    ensures r.sent.Some? ==> (r.sent.value.Put? <==> e.editId.Some?)
    ensures r.sent.Some? && r.sent.value.Put? ==> r.sent.value.id == e.editId.value
    ensures PayloadOf(e.form).Some? ==> r.sent.Some?
    ensures PayloadOf(e.form).Some? && reply.Answered? ==>
      r.next.rows == Crud.Merge(e.rows, e.editId, reply.data, IdOf) && r.next.form == Blank && r.next.editId.None?
    ensures reply.Failed? ==> r.next == e
  {
    Crud.Save(e, PayloadOf(e.form), reply, IdOf, Blank)
  }

  /** `handleEdit`: the price list's fields fill the form and its id
      becomes the edit target. */
  function Edit(e: Editor, p: PriceList): (r: Editor)
    ensures r.rows == e.rows && r.editId == Some(p.id) && r.isAdding
    ensures r.form.name == Str(p.name) && r.form.location == Str(p.location)
    ensures r.form.validFrom == Str(p.validFrom) && r.form.validTo == Str(p.validTo)
  {
    Crud.Edit(e, p, FormOf, IdOf)
  }

  /** Saving an edited price list unchanged PUTs its own four fields to its
      id, unless one of them is empty. */
  lemma EditedRowIsResent(e: Editor, p: PriceList, reply: Crud.Reply<PriceList>)
    ensures Save(Edit(e, p), reply).sent.Some? <==>
      p.name != "" && p.location != "" && p.validFrom != "" && p.validTo != ""
    ensures Save(Edit(e, p), reply).sent.Some? ==>
      Save(Edit(e, p), reply).sent.value ==
        Crud.Put(p.id, Payload(Str(p.name), Str(p.location), Str(p.validFrom), Str(p.validTo)))
  {
  }

  /** `handleDelete`. */
  function Delete(e: Editor, id: int, confirmed: bool): (r: Editor)
    ensures forall p :: p in r.rows <==> p in e.rows && (!confirmed || p.id != id)
  {
    Crud.Delete(e, id, confirmed, IdOf)
  }

  /** A price list looked up by id, used by the pages that join against price lists. */
  function Lookup(lists: seq<PriceList>, id: int): (r: Option<PriceList>)
    ensures r.None? <==> forall j :: 0 <= j < |lists| ==> lists[j].id != id
    ensures r.Some? ==> r.value in lists && r.value.id == id
    ensures forall j :: 0 <= j < |lists| && lists[j].id == id && Listing.UniqueKeys(lists, IdOf) ==>
      r == Some(lists[j])
  {
    Listing.FindByKey(lists, IdOf, id)
  }

  function PageCount(lists: seq<PriceList>, v: View): nat {
    Paging.TotalPages(|Search(lists, v.field, v.text)|)
  }

  /** `paginatedPriceLists`. */
  function VisibleRows(lists: seq<PriceList>, v: View): (r: seq<PriceList>)
    ensures |r| <= Paging.PageSize
    ensures forall p :: p in r ==> p in lists && Matches(p, v.field, v.text)
  {
    Paging.Visible(Search(lists, v.field, v.text), v.page)
  }

  /** `handlePrevious`: `Math.max(prev - 1, 1)`, so never below page 1. */
  function Previous(v: View): (r: View)
    ensures r.field == v.field && r.text == v.text
    ensures r.page >= 1
    ensures v.page > 1 ==> r.page == v.page - 1
    ensures v.page <= 1 ==> r.page == 1
  {
    v.(page := Paging.ClampBack(v.page))
  }

  /** `handleNext`: `Math.min(prev + 1, totalPages)`, so never past the last
      page; with no rows it would give 0, but the button is disabled then. */
  function Next(lists: seq<PriceList>, v: View): (r: View)
    ensures r.field == v.field && r.text == v.text
    ensures r.page <= PageCount(lists, v)
    ensures v.page >= PageCount(lists, v) ==> r.page == PageCount(lists, v)
    ensures Paging.InRange(v.page, PageCount(lists, v)) && Paging.ForwardEnabled(v.page, PageCount(lists, v)) ==>
      r.page == v.page + 1 && Paging.InRange(r.page, PageCount(lists, r))
  {
    v.(page := Paging.ClampForward(v.page, PageCount(lists, v)))
  }

  /** Typing in the search box resets the page to 1. */
  function SetText(v: View, text: string): (r: View)
    ensures r.page == 1 && r.text == text && r.field == v.field
  {
    Paging.WithText(v, text)
  }
}
