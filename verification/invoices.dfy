/**
  The invoice routes: list, create, get, update and delete. Each is a pure
  function from the caller, the request and the store to a result and the
  store left behind. A refused request never changes the store.
 */
module Invoices {
  import opened Base
  import opened Billing
  import opened Tables
  import Auth

  // ---------------------------------------------------------------------------
  // Ownership
  // ---------------------------------------------------------------------------

  /**
    Who may read an invoice: admins and receptionists read every invoice, a
    doctor the invoices that name them as doctor, a patient the invoices that
    name them as patient.
   */
  predicate MayView(caller: Identity, inv: Invoice)
  {
    match caller.role
    case Admin => true
    case Receptionist => true
    case Doctor => inv.doctorId == caller.id
    case Patient => inv.patientId == caller.id
  }

  /** Who may update an invoice: admins, receptionists, and the invoice's own doctor. */
  predicate MayEdit(caller: Identity, inv: Invoice)
  {
    caller.role in {Admin, Receptionist} || (caller.role == Doctor && inv.doctorId == caller.id)
  }

  /** Everyone who may update an invoice may also read it; patients read their invoices but never update them. */
  lemma EditImpliesView(caller: Identity, inv: Invoice)
    ensures MayEdit(caller, inv) ==> MayView(caller, inv)
    ensures caller.role == Patient ==> !MayEdit(caller, inv) && (MayView(caller, inv) <==> inv.patientId == caller.id)
  {
  }

  // ---------------------------------------------------------------------------
  // GET /api/invoices
  // ---------------------------------------------------------------------------

  /** The WHERE clause the list route picks for the caller's role. */
  function Scope(caller: Identity): Invoice -> bool
  {
    if caller.role == Admin || caller.role == Receptionist then (inv: Invoice) => true
    else if caller.role == Doctor then (inv: Invoice) => inv.doctorId == caller.id
    else (inv: Invoice) => inv.patientId == caller.id
  }

  /**
    The invoices the caller may read, newest (largest id) first, each
    hydrated. The store is only read.
   */
  function ListInvoices(caller: Identity, st: Store): (r: seq<InvoiceView>)
    ensures forall i :: 0 <= i < |r| ==>
      && Row(r[i]) in st.invoices.Values
      && MayView(caller, Row(r[i]))
      && r[i] == Hydrate(st.users, Row(r[i]))
    ensures forall k | 1 <= k < st.nextInvoiceId && k in st.invoices && MayView(caller, st.invoices[k]) ::
      Hydrate(st.users, st.invoices[k]) in r
  {
    var ids := RowsDesc(st.invoices, st.nextInvoiceId - 1, Scope(caller));
    var r := HydrateAll(st, ids);
    ListedRows(caller, st, ids, r);
    r
  }

  /** `rows.map(hydrateInvoice)`: the response body, each scanned row hydrated, in scan order. */
  function HydrateAll(st: Store, ids: seq<int>): seq<InvoiceView>
    requires forall i :: 0 <= i < |ids| ==> ids[i] in st.invoices
  {
    seq(|ids|, i requires 0 <= i < |ids| => Hydrate(st.users, st.invoices[ids[i]]))
  }

  lemma ListedRows(caller: Identity, st: Store, ids: seq<int>, r: seq<InvoiceView>)
    requires ids == RowsDesc(st.invoices, st.nextInvoiceId - 1, Scope(caller))
    requires |r| == |ids|
    requires forall i :: 0 <= i < |ids| ==> r[i] == Hydrate(st.users, st.invoices[ids[i]])
    ensures forall i :: 0 <= i < |r| ==>
      && Row(r[i]) in st.invoices.Values
      && MayView(caller, Row(r[i]))
      && r[i] == Hydrate(st.users, Row(r[i]))
    ensures forall k | 1 <= k < st.nextInvoiceId && k in st.invoices && MayView(caller, st.invoices[k]) ::
      Hydrate(st.users, st.invoices[k]) in r
  {
  }

  /** In a valid store the list is ordered by descending id (`ORDER BY id DESC`). */
  lemma ListDescending(caller: Identity, st: Store)
    requires Valid(st)
    ensures var r := ListInvoices(caller, st);
      forall i, j :: 0 <= i < j < |r| ==> r[i].id > r[j].id
  {
  }

  /**
    In a valid store the list holds, per role, exactly: every invoice (admin,
    receptionist), the invoices whose doctor is the caller (doctor), the
    invoices whose patient is the caller (patient).
   */
  lemma ListScoping(caller: Identity, st: Store, k: int)
    requires Valid(st) && k in st.invoices
    ensures Hydrate(st.users, st.invoices[k]) in ListInvoices(caller, st) <==>
      match caller.role
      case Admin => true
      case Receptionist => true
      case Doctor => st.invoices[k].doctorId == caller.id
      case Patient => st.invoices[k].patientId == caller.id
  {
    var r := ListInvoices(caller, st);
    var inv := st.invoices[k];
    if Hydrate(st.users, inv) in r {
      var i :| 0 <= i < |r| && r[i] == Hydrate(st.users, inv);
      assert Row(r[i]) == inv;
    }
  }

  // ---------------------------------------------------------------------------
  // POST /api/invoices
  // ---------------------------------------------------------------------------

  /**
    A `patient_id` or `doctor_id` from a JSON body. Validation tests the raw
    value for JavaScript truthiness without converting it, so `truthy` is kept
    apart from `key`, the integer SQLite stores for the value under the
    column's INTEGER affinity: `None` when what is stored is not an integer
    (text such as "abc", or 1.5), which no user id can equal. A missing field
    is `BodyId(false, None)`; the number 0 is falsy, the string "0" truthy.
   */
  datatype BodyId = BodyId(truthy: bool, key: Option<int>)

  /** The request body `{patient_id, doctor_id, items}`; `items` is `None` when missing or not an array. */
  datatype NewInvoice = NewInvoice(patientId: BodyId, doctorId: BodyId, items: Option<seq<Item>>)

  /** `Array.isArray(items) && items.length !== 0`. */
  predicate NonEmptyItems(items: Option<seq<Item>>)
  {
    items.Some? && items.value != []
  }

  /** The roles that may create invoices. */
  const Issuers: seq<Role> := [Admin, Receptionist, Doctor]

  /** The body passes validation for this caller: a patient, items, and a doctor unless the caller is one. */
  predicate CreatePayloadOk(caller: Identity, body: NewInvoice)
  {
    body.patientId.truthy && (body.doctorId.truthy || caller.role == Doctor) && NonEmptyItems(body.items)
  }

  /** The doctor recorded on a new invoice: the caller when the caller is a doctor, otherwise the body's. */
  function ResolvedDoctor(caller: Identity, body: NewInvoice): BodyId
  {
    if caller.role == Doctor then BodyId(true, Some(caller.id)) else body.doctorId
  }

  /** The foreign key accepts a stored value only when it is the id of an existing user. */
  predicate Names(users: map<int, User>, id: BodyId)
  {
    id.key.Some? && id.key.value in users
  }

  /** Both foreign keys of the row about to be inserted are satisfied. */
  predicate PartiesExist(users: map<int, User>, caller: Identity, body: NewInvoice)
  {
    Names(users, body.patientId) && Names(users, ResolvedDoctor(caller, body))
  }

  /**
    Invoice creation. The role is checked before the body; the total is
    recomputed from the items; the status starts as "unpaid"; the store's
    foreign keys reject a patient or doctor id with no user behind it.
   */
  function CreateInvoice(caller: Identity, body: NewInvoice, st: Store, now: string): (out: Reply<InvoiceView>)
    ensures caller.role !in Issuers ==> out == Reply(Failure(Forbidden), st)
    ensures caller.role in Issuers && !CreatePayloadOk(caller, body) ==>
      out == Reply(Failure(BadRequest("Invalid payload")), st)
    ensures caller.role in Issuers && CreatePayloadOk(caller, body) && !PartiesExist(st.users, caller, body) ==>
      out == Reply(Failure(StoreFailure("Failed to create invoice")), st)
    ensures out.result.Failure? ==> out.store == st
    ensures out.result.Success? <==>
      caller.role in Issuers && CreatePayloadOk(caller, body) && PartiesExist(st.users, caller, body)
    ensures out.result.Success? ==>
      var v := out.result.value;
      && v.id == st.nextInvoiceId
      && Some(v.patientId) == body.patientId.key
      && Some(v.doctorId) == (if caller.role == Doctor then Some(caller.id) else body.doctorId.key)
      && v.items == body.items.value
      && v.total == Sum(v.items)
      && v.status == "unpaid"
      && v.createdAt == now
      && v == Hydrate(out.store.users, Row(v))
      && out.store == st.(invoices := st.invoices[v.id := Row(v)], nextInvoiceId := v.id + 1)
  {
    match Auth.RequireRole(Issuers, caller)
    case Some(e) => Reply(Failure(e), st)
    case None =>
      if !CreatePayloadOk(caller, body) then Reply(Failure(BadRequest("Invalid payload")), st)
      else if !PartiesExist(st.users, caller, body) then
        Reply(Failure(StoreFailure("Failed to create invoice")), st)
      else
        var patientId := body.patientId.key.value;
        var doctorId := ResolvedDoctor(caller, body).key.value;
        var items := body.items.value;
        var id := st.nextInvoiceId;
        var inv := Invoice(id, patientId, doctorId, items, Sum(items), "unpaid", now);
        var st' := st.(invoices := st.invoices[id := inv], nextInvoiceId := id + 1);
        Reply(Success(Hydrate(st'.users, inv)), st')
  }

  /** A doctor's own id is recorded whatever `doctor_id` the body carries, or whether it carries one at all. */
  lemma DoctorIdForced(caller: Identity, p: BodyId, d1: BodyId, d2: BodyId,
                       items: Option<seq<Item>>, st: Store, now: string)
    requires caller.role == Doctor
    ensures CreateInvoice(caller, NewInvoice(p, d1, items), st, now) == CreateInvoice(caller, NewInvoice(p, d2, items), st, now)
  {
  }

  /**
    In a valid store a created invoice gets an id no invoice has, every
    existing invoice is left as it was, and the store stays valid.
   */
  lemma CreateFresh(caller: Identity, body: NewInvoice, st: Store, now: string)
    requires Valid(st)
    requires CreateInvoice(caller, body, st, now).result.Success?
    ensures var out := CreateInvoice(caller, body, st, now);
      && out.result.value.id !in st.invoices
      && out.store.invoices.Keys == st.invoices.Keys + {out.result.value.id}
      && (forall k :: k in st.invoices ==> out.store.invoices[k] == st.invoices[k])
      && out.store.users == st.users
      && Valid(out.store)
  {
    var out := CreateInvoice(caller, body, st, now);
    var inv := Row(out.result.value);
    assert WellFormed(st.users, inv);
    PutInvoiceKeepsValid(st, inv, inv.id + 1);
  }

  /** Writing a well-formed invoice under its own id below the counter keeps the store valid. */
  lemma PutInvoiceKeepsValid(st: Store, inv: Invoice, next: int)
    requires Valid(st) && WellFormed(st.users, inv)
    requires 1 <= inv.id < next && st.nextInvoiceId <= next
    ensures Valid(st.(invoices := st.invoices[inv.id := inv], nextInvoiceId := next))
  {
  }

  // ---------------------------------------------------------------------------
  // GET /api/invoices/:id
  // ---------------------------------------------------------------------------

  /**
    One invoice by id. Existence is checked before ownership, so a missing id
    is NotFound for every caller, and an existing one is Forbidden exactly
    when the caller may not see it in their list.
   */
  function GetInvoice(caller: Identity, id: Option<int>, st: Store): (r: Result<InvoiceView>)
    ensures r == Failure(NotFound) <==> id.None? || id.value !in st.invoices
    ensures r == Failure(Forbidden) <==> id.Some? && id.value in st.invoices && !MayView(caller, st.invoices[id.value])
    ensures r.Success? ==> id.Some? && id.value in st.invoices && r.value == Hydrate(st.users, st.invoices[id.value])
    ensures r.Success? || r == Failure(NotFound) || r == Failure(Forbidden)
  {
    if id.None? || id.value !in st.invoices then Failure(NotFound)
    else
      var inv := st.invoices[id.value];
      if (caller.role == Patient && inv.patientId != caller.id)
        || (caller.role == Doctor && inv.doctorId != caller.id)
      then Failure(Forbidden)
      else Success(Hydrate(st.users, inv))
  }

  /** Reading one invoice succeeds exactly for the invoices the caller's list contains. */
  lemma GetAgreesWithList(caller: Identity, st: Store, k: int)
    requires Valid(st) && k in st.invoices
    ensures GetInvoice(caller, Some(k), st).Success? <==> Hydrate(st.users, st.invoices[k]) in ListInvoices(caller, st)
  {
    var r := ListInvoices(caller, st);
    if Hydrate(st.users, st.invoices[k]) in r {
      var i :| 0 <= i < |r| && r[i] == Hydrate(st.users, st.invoices[k]);
      assert Row(r[i]) == st.invoices[k];
    }
  }

  // ---------------------------------------------------------------------------
  // PUT /api/invoices/:id
  // ---------------------------------------------------------------------------

  /** The request body `{items, status}`; both are replaced in full. */
  datatype InvoiceEdit = InvoiceEdit(items: Option<seq<Item>>, status: Option<string>)

  predicate EditPayloadOk(edit: InvoiceEdit)
  {
    NonEmptyItems(edit.items) && edit.status.Some? && edit.status.value != ""
  }

  /**
    Invoice update: existence, then permission against the stored doctor,
    then the body. Only the items, the recomputed total and the status
    change; ids, parties, creation time and every other invoice stay.
   */
  function UpdateInvoice(caller: Identity, id: Option<int>, edit: InvoiceEdit, st: Store): (out: Reply<InvoiceView>)
    ensures out.result == Failure(NotFound) <==> id.None? || id.value !in st.invoices
    ensures out.result == Failure(Forbidden) <==>
      id.Some? && id.value in st.invoices && !MayEdit(caller, st.invoices[id.value])
    ensures id.Some? && id.value in st.invoices && MayEdit(caller, st.invoices[id.value]) && !EditPayloadOk(edit) ==>
      out.result == Failure(BadRequest("Invalid payload"))
    ensures out.result.Failure? ==> out.store == st
    ensures out.result.Success? <==>
      id.Some? && id.value in st.invoices && MayEdit(caller, st.invoices[id.value]) && EditPayloadOk(edit)
    ensures out.result.Success? ==> id.Some? && id.value in st.invoices && id.value in out.store.invoices
    ensures out.result.Success? ==>
      var k := id.value;
      var before := st.invoices[k];
      var after := out.store.invoices[k];
      && after.items == edit.items.value
      && after.total == Sum(edit.items.value)
      && after.status == edit.status.value
      && after.id == before.id && after.patientId == before.patientId
      && after.doctorId == before.doctorId && after.createdAt == before.createdAt
      && out.store.invoices.Keys == st.invoices.Keys
      && (forall j :: j in st.invoices && j != k ==> out.store.invoices[j] == st.invoices[j])
      && out.store.users == st.users && out.store.nextUserId == st.nextUserId
      && out.store.nextInvoiceId == st.nextInvoiceId
      && out.result.value == Hydrate(st.users, after)
  {
    if id.None? || id.value !in st.invoices then Reply(Failure(NotFound), st)
    else
      var inv := st.invoices[id.value];
      if !(caller.role in {Admin, Receptionist}) && !(caller.role == Doctor && inv.doctorId == caller.id) then
        Reply(Failure(Forbidden), st)
      else if !EditPayloadOk(edit) then Reply(Failure(BadRequest("Invalid payload")), st)
      else
        var items := edit.items.value;
        var updated := inv.(items := items, total := Sum(items), status := edit.status.value);
        var st' := st.(invoices := st.invoices[id.value := updated]);
        Reply(Success(Hydrate(st'.users, updated)), st')
  }

  /** An update keeps a valid store valid. */
  lemma UpdateKeepsValid(caller: Identity, id: Option<int>, edit: InvoiceEdit, st: Store)
    requires Valid(st)
    ensures Valid(UpdateInvoice(caller, id, edit, st).store)
  {
    var out := UpdateInvoice(caller, id, edit, st);
    if out.result.Success? {
      var k := id.value;
      assert WellFormed(st.users, st.invoices[k]);
      assert out.store == st.(invoices := st.invoices[k := out.store.invoices[k]]);
      PutInvoiceKeepsValid(st, out.store.invoices[k], st.nextInvoiceId);
    }
  }

  // ---------------------------------------------------------------------------
  // DELETE /api/invoices/:id
  // ---------------------------------------------------------------------------

  /**
    Invoice deletion, admins only. The answer says whether a row went away;
    a missing id is not an error.
   */
  function DeleteInvoice(caller: Identity, id: Option<int>, st: Store): (out: Reply<bool>)
    ensures caller.role != Admin ==> out == Reply(Failure(Forbidden), st)
    ensures caller.role == Admin ==> out.result.Success?
    ensures out.result.Success? ==> (out.result.value <==> id.Some? && id.value in st.invoices)
    ensures id.Some? && out.result.Success? ==> id.value !in out.store.invoices
    ensures out.store.invoices.Keys <= st.invoices.Keys
    ensures forall j :: j in out.store.invoices ==> out.store.invoices[j] == st.invoices[j]
    ensures forall j :: j in st.invoices && (id.None? || j != id.value) ==> j in out.store.invoices
    ensures out.store.users == st.users && out.store.nextUserId == st.nextUserId
    ensures out.store.nextInvoiceId == st.nextInvoiceId
  {
    match Auth.RequireRole([Admin], caller)
    case Some(e) => Reply(Failure(e), st)
    case None =>
      match id
      case None => Reply(Success(false), st)
      case Some(k) => Reply(Success(k in st.invoices), st.(invoices := st.invoices - {k}))
  }

  /** Deleting the same id twice reports `false` the second time. */
  lemma DeleteTwice(caller: Identity, k: int, st: Store)
    requires caller.role == Admin
    ensures var once := DeleteInvoice(caller, Some(k), st);
      DeleteInvoice(caller, Some(k), once.store).result == Success(false)
  {
  }

  /** A delete keeps a valid store valid. */
  lemma DeleteKeepsValid(caller: Identity, id: Option<int>, st: Store)
    requires Valid(st)
    ensures Valid(DeleteInvoice(caller, id, st).store)
  {
  }

  /**
    Ids are never reused: an invoice created after a delete gets a different
    id from the deleted one, because the counter does not move back.
   */
  lemma NoIdReuse(admin: Identity, k: int, caller: Identity, body: NewInvoice, st: Store, now: string)
    requires Valid(st) && admin.role == Admin && k in st.invoices
    ensures var afterDelete := DeleteInvoice(admin, Some(k), st).store;
      var created := CreateInvoice(caller, body, afterDelete, now);
      created.result.Success? ==> created.result.value.id != k
  {
  }
}
