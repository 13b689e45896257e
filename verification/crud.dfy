/** The create/update/delete cycle every resource page repeats: the edit
    form, the PUT-or-POST decision on Save, and how the single row the
    server returns is merged into the loaded list. The server's reply is an
    input of each handler, so every handler is a pure state transition. */
module Crud {
  import opened Wrappers
  import Listing

  /** What came back from the HTTP call: the request threw (`Failed`), or
      it returned, with `res.data` as a row or without one. */
  datatype Reply<T> = Failed | Answered(data: Option<T>)

  /** The request Save sends: PUT to `/:editId`, or POST to the collection. */
  datatype Request<P> = Put(id: int, payload: P) | Post(payload: P)

  /** The blocking alerts Save can raise. */
  datatype Alert = FieldsRequired | SaveFailed

  /** The list the page holds and its edit form. */
  datatype Editor<T, F> = Editor(rows: seq<T>, form: F, editId: Option<int>, isAdding: bool)

  /** One Save: the state after it, the request it sent and the alert it raised. */
  datatype SaveStep<T, F, P> = SaveStep(next: Editor<T, F>, sent: Option<Request<P>>, alert: Option<Alert>)

  /** `res.data && res.data.<id>`: the reply carries a row with a truthy id. */
  predicate Stored<T>(data: Option<T>, idOf: T -> int) {
    data.Some? && idOf(data.value) != 0
  }

  /** No two rows share an id. */
  predicate UniqueIds<T>(rows: seq<T>, idOf: T -> int) {
    Listing.UniqueKeys(rows, idOf)
  }

  /** `rows.map(x => x.id === id ? row : x)`. */
  function ReplaceById<T>(rows: seq<T>, id: int, row: T, idOf: T -> int): (r: seq<T>)
    ensures |r| == |rows|
    ensures forall i :: 0 <= i < |rows| ==> r[i] == if idOf(rows[i]) == id then row else rows[i]
    ensures forall x :: x in rows && idOf(x) != id ==> x in r
    ensures forall x :: x in r ==> x == row || (x in rows && idOf(x) != id)
  {
    var r := Listing.ReplaceWhere(rows, x => idOf(x) == id, row);
    assert forall x :: x in rows && idOf(x) != id ==> x in r by {
      forall x | x in rows && idOf(x) != id
        ensures x in r
      {
        var i :| 0 <= i < |rows| && rows[i] == x;
        assert r[i] == x;
      }
    }
    r
  }

  /** `rows.filter(x => x.id !== id)`. */
  function RemoveById<T(!new)>(rows: seq<T>, id: int, idOf: T -> int): (r: seq<T>)
    ensures forall x :: x in r <==> x in rows && idOf(x) != id
    ensures forall x :: idOf(x) != id ==> multiset(r)[x] == multiset(rows)[x]
    ensures forall x :: idOf(x) == id ==> multiset(r)[x] == 0
  {
    Listing.Filter(rows, x => idOf(x) != id)
  }

  /** How Save folds the reply into the list: replace on update, append on
      create, nothing when the reply has no truthy id. */
  function Merge<T>(rows: seq<T>, editId: Option<int>, data: Option<T>, idOf: T -> int): (r: seq<T>)
    ensures !Stored(data, idOf) ==> r == rows
    ensures Stored(data, idOf) && editId.Some? ==>
      && |r| == |rows|
      && forall i :: 0 <= i < |rows| ==> r[i] == if idOf(rows[i]) == editId.value then data.value else rows[i]
    ensures Stored(data, idOf) && editId.None? ==>
      |r| == |rows| + 1 && r[..|rows|] == rows && r[|rows|] == data.value
  {
    if !Stored(data, idOf) then rows
    else if editId.Some? then ReplaceById(rows, editId.value, data.value, idOf)
    else rows + [data.value]
  }

  /** `handleSave`. `payload` is the page's validated payload (None when a
      required field is missing); `reply` is what the server answered. */
  function Save<T, F, P>(e: Editor<T, F>, payload: Option<P>, reply: Reply<T>, idOf: T -> int, blank: F)
    : (r: SaveStep<T, F, P>)
    ensures payload.None? ==> r == SaveStep(e, None, Some(FieldsRequired))
    ensures payload.Some? ==>
      r.sent == Some(if e.editId.Some? then Put(e.editId.value, payload.value) else Post(payload.value))
    ensures payload.Some? && reply.Failed? ==> r.next == e && r.alert == Some(SaveFailed)
    ensures payload.Some? && reply.Answered? ==>
      && r.next == Editor(Merge(e.rows, e.editId, reply.data, idOf), blank, None, false)
      && r.alert == None
    ensures forall x :: x in e.rows && (e.editId.None? || idOf(x) != e.editId.value) ==> x in r.next.rows
    ensures |r.next.rows| ==
      |e.rows| + if payload.Some? && reply.Answered? && Stored(reply.data, idOf) && e.editId.None? then 1 else 0
  {
    match payload
    case None => SaveStep(e, None, Some(FieldsRequired))
    case Some(p) =>
      var request := if e.editId.Some? then Put(e.editId.value, p) else Post(p);
      match reply
      case Failed => SaveStep(e, Some(request), Some(SaveFailed))
      case Answered(data) =>
        SaveStep(Editor(Merge(e.rows, e.editId, data, idOf), blank, None, false), Some(request), None)
  }

  /** `handleDelete`: the row goes only once the server confirmed the DELETE. */
  function Delete<T(!new), F>(e: Editor<T, F>, id: int, confirmed: bool, idOf: T -> int): (r: Editor<T, F>)
    ensures confirmed ==> r.rows == RemoveById(e.rows, id, idOf)
    ensures !confirmed ==> r == e
    ensures r.form == e.form && r.editId == e.editId && r.isAdding == e.isAdding
  {
    if confirmed then e.(rows := RemoveById(e.rows, id, idOf)) else e
  }

  /** `handleAddNew`: an empty form in create mode. */
  function AddNew<T, F>(e: Editor<T, F>, blank: F): (r: Editor<T, F>)
    ensures r.rows == e.rows && r.form == blank
    ensures r.editId.None? && r.isAdding
  {
    Editor(e.rows, blank, None, true)
  }

  /** `handleEdit`: the row itself becomes the form (`formOf` says how a
      row reads as a form) and its id the edit target. */
  function Edit<T, F>(e: Editor<T, F>, row: T, formOf: T -> F, idOf: T -> int): (r: Editor<T, F>)
    ensures r.rows == e.rows && r.form == formOf(row)
    ensures r.editId == Some(idOf(row)) && r.isAdding
  {
    Editor(e.rows, formOf(row), Some(idOf(row)), true)
  }

  /** A confirmed delete keeps every other row in its original order. */
  lemma RemoveKeepsOrder<T(!new)>(rows: seq<T>, id: int, idOf: T -> int)
    ensures Listing.Subsequence(RemoveById(rows, id, idOf), rows)
  {
    Listing.FilterIsSubsequence(rows, x => idOf(x) != id);
  }

  /** Deleting the id a create just appended gives back the list before the
      create, provided the new id was not already in the list. */
  lemma {:induction false} DeleteUndoesCreate<T(!new)>(rows: seq<T>, row: T, idOf: T -> int)
    requires forall i :: 0 <= i < |rows| ==> idOf(rows[i]) != idOf(row)
    ensures RemoveById(rows + [row], idOf(row), idOf) == rows
  {
    var keep := x => idOf(x) != idOf(row);
    Listing.FilterAppend(rows, [row], keep);
    Listing.FilterKeepsAll(rows, keep);
  }

  /** Once the server returns the row for the edited id, deleting that id
      gives the same list as deleting it before the update. */
  lemma {:induction false} DeleteAfterUpdate<T(!new)>(rows: seq<T>, id: int, row: T, idOf: T -> int)
    requires idOf(row) == id
    ensures RemoveById(ReplaceById(rows, id, row, idOf), id, idOf) == RemoveById(rows, id, idOf)
    decreases |rows|
  {
    if rows != [] {
      var replaced := ReplaceById(rows, id, row, idOf);
      assert replaced[1..] == ReplaceById(rows[1..], id, row, idOf);
      DeleteAfterUpdate(rows[1..], id, row, idOf);
    }
  }

  /** Merging a reply keeps ids unique when a created row brings a fresh id
      and an updated row keeps the edited id. */
  lemma MergeKeepsUniqueIds<T>(rows: seq<T>, editId: Option<int>, data: Option<T>, idOf: T -> int)
    requires UniqueIds(rows, idOf)
    requires Stored(data, idOf) && editId.None? ==>
      forall i :: 0 <= i < |rows| ==> idOf(rows[i]) != idOf(data.value)
    requires Stored(data, idOf) && editId.Some? ==> idOf(data.value) == editId.value
    ensures UniqueIds(Merge(rows, editId, data, idOf), idOf)
  {
    var r := Merge(rows, editId, data, idOf);
    if Stored(data, idOf) && editId.Some? {
      assert forall i :: 0 <= i < |rows| ==> idOf(r[i]) == idOf(rows[i]);
    }
  }

  /** A confirmed delete keeps ids unique. */
  lemma RemoveKeepsUniqueIds<T(!new)>(rows: seq<T>, id: int, idOf: T -> int)
    requires UniqueIds(rows, idOf)
    ensures UniqueIds(RemoveById(rows, id, idOf), idOf)
  {
    Listing.FilterKeepsUniqueKeys(rows, x => idOf(x) != id, idOf);
  }
}
