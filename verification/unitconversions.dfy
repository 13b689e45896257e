/** The Unit Conversions page: conversions searched by id or by the
    resolved name of their from/to unit, with clamped Previous/Next. */
module UnitConversions {
  import opened Wrappers
  import opened Text
  import opened Js
  import Listing
  import Paging
  import Crud
  import Units

  /** Rates are modelled as integers. */
  datatype Conversion = Conversion(id: int, fromUnit: int, toUnit: int, rate: int)

  datatype SearchField = ById | ByFrom | ByTo

  /** `Partial<UnitConversion>`: the selects and the rate box store the raw
      text, `handleEdit` stores the row's numbers. */
  datatype Form = Form(fromUnit: Value, toUnit: Value, rate: Value)

  /** The form fields `handleInputChange` can write. */
  datatype FormField = FromInput | ToInput | RateInput

  /** The body of the PUT/POST request: no id. */
  datatype Payload = Payload(fromUnit: Value, toUnit: Value, rate: Value)

  type Editor = Crud.Editor<Conversion, Form>
  type View = Paging.View<SearchField>

  const Blank: Form := Form(Undefined, Undefined, Undefined)

  function IdOf(c: Conversion): int {
    c.id
  }

  /** The form `handleEdit` fills from a row. */
  function FormOf(c: Conversion): Form {
    Form(Num(c.fromUnit), Num(c.toUnit), Num(c.rate))
  }

  /** `handleInputChange`: the field takes the raw text of the control. */
  function Input(f: Form, field: FormField, value: string): (r: Form)
    ensures field == FromInput ==> r == f.(fromUnit := Str(value))
    ensures field == ToInput ==> r == f.(toUnit := Str(value))
    ensures field == RateInput ==> r == f.(rate := Str(value))
  {
    match field
    case FromInput => f.(fromUnit := Str(value))
    case ToInput => f.(toUnit := Str(value))
    case RateInput => f.(rate := Str(value))
  }

  /** `getUnitName`: the name of the first unit with that id, otherwise
      "ID " followed by the id. */
  function UnitName(units: seq<Units.Unit>, id: int): (r: string)
    ensures (forall j :: 0 <= j < |units| ==> units[j].id != id) ==> r == "ID " + IntToString(id)
    ensures (exists j :: 0 <= j < |units| && units[j].id == id) ==>
      exists u :: u in units && u.id == id && r == u.name
    ensures Listing.UniqueKeys(units, Units.IdOf) ==>
      forall j :: 0 <= j < |units| && units[j].id == id ==> r == units[j].name
  {
    match Units.Lookup(units, id)
    case Some(u) => u.name
    case None => "ID " + IntToString(id)
  }

  /** The text of the chosen field that the search looks into. */
  function FieldText(units: seq<Units.Unit>, c: Conversion, field: SearchField): string {
    match field
    case ById => IntToString(c.id)
    case ByFrom => Lower(UnitName(units, c.fromUnit))
    case ByTo => Lower(UnitName(units, c.toUnit))
  }

  predicate Matches(units: seq<Units.Unit>, c: Conversion, field: SearchField, text: string) {
    Contains(FieldText(units, c, field), Lower(text))
  }

  /** `filteredConversions`. */
  function Search(units: seq<Units.Unit>, conversions: seq<Conversion>, field: SearchField, text: string)
    : (r: seq<Conversion>)
    ensures |r| <= |conversions|
    ensures forall c :: c in r <==> c in conversions && Matches(units, c, field, text)
  {
    Listing.Filter(conversions, (c: Conversion) => Matches(units, c, field, text))
  }

  /** A conversion is found iff the lower-cased search text occurs in the
      resolved name of its unit (or in its id); matches keep their order. */
  lemma SearchSelects(units: seq<Units.Unit>, conversions: seq<Conversion>, field: SearchField, text: string)
    ensures forall c :: c in Search(units, conversions, field, text) <==>
      c in conversions && Occurs(FieldText(units, c, field), Lower(text))
    ensures Listing.Subsequence(Search(units, conversions, field, text), conversions)
  {
    forall c: Conversion {
      ContainsIffOccurs(FieldText(units, c, field), Lower(text));
    }
    Listing.FilterIsSubsequence(conversions, (c: Conversion) => Matches(units, c, field, text));
  }

  /** Searching the From unit for "gram" finds the conversions from "gram"
      and from "kilogram" alike: the match is on a substring. */
  lemma GramMatchesKilogram()
    ensures Search([Units.Unit(1, "gram", "g"), Units.Unit(2, "kilogram", "kg")],
                   [Conversion(1, 1, 2, 1), Conversion(2, 2, 1, 1000)], ByFrom, "gram")
      == [Conversion(1, 1, 2, 1), Conversion(2, 2, 1, 1000)]
  {
    var units := [Units.Unit(1, "gram", "g"), Units.Unit(2, "kilogram", "kg")];
    var c1, c2 := Conversion(1, 1, 2, 1), Conversion(2, 2, 1, 1000);
    ExampleNamesResolve();
    KilogramContainsGram();
    assert Matches(units, c1, ByFrom, "gram");
    assert Matches(units, c2, ByFrom, "gram");
    Listing.FilterKeepsAll([c1, c2], (c: Conversion) => Matches(units, c, ByFrom, "gram"));
  }

  /** The example's from-unit names, lower-cased. */
  lemma ExampleNamesResolve()
    ensures Lower(UnitName([Units.Unit(1, "gram", "g"), Units.Unit(2, "kilogram", "kg")], 1)) == "gram"
    ensures Lower(UnitName([Units.Unit(1, "gram", "g"), Units.Unit(2, "kilogram", "kg")], 2)) == "kilogram"
    ensures Lower("gram") == "gram"
  {
    var units := [Units.Unit(1, "gram", "g"), Units.Unit(2, "kilogram", "kg")];
    assert Units.Lookup(units, 1) == Some(units[0]);
    assert Units.Lookup(units, 2) == Some(units[1]);
    assert Lower("gram") == "gram";
    assert Lower("kilogram") == "kilogram";
  }

  lemma KilogramContainsGram()
    ensures Contains("gram", "gram") && Contains("kilogram", "gram")
  {
    var k := "kilogram";
    assert k[1..][1..][1..][1..] == "gram";
  }

  /** Save's check and payload: refused only when a field is missing
      altogether; the values are sent through `Number(...)`. */
  function PayloadOf(f: Form): (p: Option<Payload>)
    ensures p.None? <==> f.fromUnit.Undefined? || f.toUnit.Undefined? || f.rate.Undefined?
    ensures p.Some? ==> p.value == Payload(ToNumber(f.fromUnit), ToNumber(f.toUnit), ToNumber(f.rate))
  {
    if f.fromUnit.Undefined? || f.toUnit.Undefined? || f.rate.Undefined? then None
    else Some(Payload(ToNumber(f.fromUnit), ToNumber(f.toUnit), ToNumber(f.rate)))
  }

  /** Choosing the "Select ..." placeholders and clearing the rate is not
      refused: the empty strings go out as the number 0. */
  lemma EmptyStringsAreSent()
    ensures PayloadOf(Input(Input(Input(Blank, FromInput, ""), ToInput, ""), RateInput, ""))
      == Some(Payload(Num(0), Num(0), Num(0)))
  {
  }


  /** `handleSave`. */
  function Save(e: Editor, reply: Crud.Reply<Conversion>): (r: Crud.SaveStep<Conversion, Form, Payload>)
    ensures e.form.fromUnit.Undefined? || e.form.toUnit.Undefined? || e.form.rate.Undefined? ==>
      r.sent.None? && r.next == e && r.alert == Some(Crud.FieldsRequired)
    ensures r.sent.Some? ==>
      r.sent.value.payload == Payload(ToNumber(e.form.fromUnit), ToNumber(e.form.toUnit), ToNumber(e.form.rate))
    ensures r.sent.Some? ==> (r.sent.value.Put? <==> e.editId.Some?)
    ensures r.sent.Some? && r.sent.value.Put? ==> r.sent.value.id == e.editId.value
    ensures PayloadOf(e.form).Some? ==> r.sent.Some?
    ensures PayloadOf(e.form).Some? && reply.Answered? ==>
      r.next.rows == Crud.Merge(e.rows, e.editId, reply.data, IdOf) && r.next.form == Blank && r.next.editId.None?
    ensures reply.Failed? ==> r.next == e
  {
    Crud.Save(e, PayloadOf(e.form), reply, IdOf, Blank)
  }

  /** `handleEdit`: the conversion's numbers fill the form and its id
      becomes the edit target. */
  function Edit(e: Editor, c: Conversion): (r: Editor)
    ensures r.rows == e.rows && r.editId == Some(c.id) && r.isAdding
    ensures r.form == Form(Num(c.fromUnit), Num(c.toUnit), Num(c.rate))
  {
    Crud.Edit(e, c, FormOf, IdOf)
  }

  /** Saving an edited row unchanged always PUTs the row's own values to
      its id: the form holds numbers, none of them undefined. */
  lemma EditedRowSendsItsValues(e: Editor, c: Conversion, reply: Crud.Reply<Conversion>)
    ensures Save(Edit(e, c), reply).sent == Some(Crud.Put(c.id, Payload(Num(c.fromUnit), Num(c.toUnit), Num(c.rate))))
  {
  }

  /** `handleDelete`. */
  function Delete(e: Editor, id: int, confirmed: bool): (r: Editor)
    ensures forall c :: c in r.rows <==> c in e.rows && (!confirmed || c.id != id)
  {
    Crud.Delete(e, id, confirmed, IdOf)
  }

  function PageCount(units: seq<Units.Unit>, conversions: seq<Conversion>, v: View): nat {
    Paging.TotalPages(|Search(units, conversions, v.field, v.text)|)
  }

  /** `paginatedConversions`. */
  function VisibleRows(units: seq<Units.Unit>, conversions: seq<Conversion>, v: View): (r: seq<Conversion>)
    ensures |r| <= Paging.PageSize
    ensures forall c :: c in r ==> c in conversions && Matches(units, c, v.field, v.text)
  {
    Paging.Visible(Search(units, conversions, v.field, v.text), v.page)
  }

  /** `handlePrevious`: `Math.max(prev - 1, 1)`. */
  function Previous(v: View): (r: View)
    ensures r.field == v.field && r.text == v.text
    ensures r.page >= 1
    ensures v.page > 1 ==> r.page == v.page - 1
    ensures v.page <= 1 ==> r.page == 1
  {
    v.(page := Paging.ClampBack(v.page))
  }

  /** `handleNext`: `Math.min(prev + 1, totalPages)`. */
  function Next(units: seq<Units.Unit>, conversions: seq<Conversion>, v: View): (r: View)
    ensures r.field == v.field && r.text == v.text
    ensures r.page <= PageCount(units, conversions, v)
    ensures v.page >= PageCount(units, conversions, v) ==> r.page == PageCount(units, conversions, v)
    ensures Paging.InRange(v.page, PageCount(units, conversions, v)) &&
            Paging.ForwardEnabled(v.page, PageCount(units, conversions, v)) ==>
      r.page == v.page + 1 && Paging.InRange(r.page, PageCount(units, conversions, r))
  {
    v.(page := Paging.ClampForward(v.page, PageCount(units, conversions, v)))
  }

  /** Typing in the search box resets the page to 1. */
  function SetText(v: View, text: string): (r: View)
    ensures r.page == 1 && r.text == text && r.field == v.field
  {
    Paging.WithText(v, text)
  }
}
