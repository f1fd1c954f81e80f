/**
  The request pipeline: every protected route first runs `authRequired`,
  then its own handler. Requests are values of `Request`; the answer is a
  `Payload` or a refusal, together with the store left behind.
 */
module Server {
  import opened Base
  import opened Billing
  import opened Tables
  import Auth
  import Text
  import Directory
  import Invoices

  /** The protected routes, with their already-parsed query, path and body values. */
  datatype Request =
    | RegisterUser(registration: Directory.Registration)       // POST /api/auth/register
    | ListUsers(roleQuery: Option<string>)                      // GET /api/users?role=
    | ListInvoices                                              // GET /api/invoices
    | CreateInvoice(newInvoice: Invoices.NewInvoice)            // POST /api/invoices
    | GetInvoice(id: Option<int>)                               // GET /api/invoices/:id
    | UpdateInvoice(id: Option<int>, edit: Invoices.InvoiceEdit) // PUT /api/invoices/:id
    | DeleteInvoice(id: Option<int>)                            // DELETE /api/invoices/:id

  /** The success bodies of the routes. */
  datatype Payload =
    | CreatedUser(user: UserSummary)
    | UserList(users: seq<UserSummary>)
    | InvoiceList(invoices: seq<InvoiceView>)
    | OneInvoice(invoice: InvoiceView)
    | DeleteAck(deleted: bool)

  /** Routes that only read the store. */
  predicate ReadOnly(req: Request)
  {
    req.ListUsers? || req.ListInvoices? || req.GetInvoice?
  }

  /** Runs the handler of `req` for an authenticated caller. */
  function Dispatch(caller: Identity, req: Request, st: Store, now: string): (out: Reply<Payload>)
    ensures out.result.Failure? ==> out.store == st
    ensures ReadOnly(req) ==> out.store == st
  {
    match req
    case RegisterUser(body) =>
      var out := Directory.Register(caller, body, st, now);
      Reply(if out.result.Success? then Success(CreatedUser(out.result.value)) else Failure(out.result.error), out.store)
    case ListUsers(q) =>
      var r := Directory.ListUsers(caller, q, st);
      Reply(if r.Success? then Success(UserList(r.value)) else Failure(r.error), st)
    case ListInvoices =>
      Reply(Success(InvoiceList(Invoices.ListInvoices(caller, st))), st)
    case CreateInvoice(body) =>
      var out := Invoices.CreateInvoice(caller, body, st, now);
      Reply(if out.result.Success? then Success(OneInvoice(out.result.value)) else Failure(out.result.error), out.store)
    case GetInvoice(id) =>
      var r := Invoices.GetInvoice(caller, id, st);
      Reply(if r.Success? then Success(OneInvoice(r.value)) else Failure(r.error), st)
    case UpdateInvoice(id, edit) =>
      var out := Invoices.UpdateInvoice(caller, id, edit, st);
      Reply(if out.result.Success? then Success(OneInvoice(out.result.value)) else Failure(out.result.error), out.store)
    case DeleteInvoice(id) =>
      var out := Invoices.DeleteInvoice(caller, id, st);
      Reply(if out.result.Success? then Success(DeleteAck(out.result.value)) else Failure(out.result.error), out.store)
  }

  /**
    A request end to end. Authentication comes before every other check, so
    a missing or rejected token is answered the same way on every route, and
    no refusal of any kind writes to the store.
   */
  function Handle(header: Option<string>, verify: string -> Option<Identity>, req: Request, st: Store, now: string)
    : (out: Reply<Payload>)
    ensures Auth.BearerToken(header) == "" ==> out == Reply(Failure(Unauthorized), st)
    ensures Auth.BearerToken(header) != "" && verify(Auth.BearerToken(header)).None? ==>
      out == Reply(Failure(InvalidToken), st)
    ensures Auth.BearerToken(header) != "" && verify(Auth.BearerToken(header)).Some? ==>
      out == Dispatch(verify(Auth.BearerToken(header)).value, req, st, now)
    ensures out.result.Failure? ==> out.store == st
    ensures ReadOnly(req) ==> out.store == st
  {
    match Auth.Authenticate(header, verify)
    case Failure(e) => Reply(Failure(e), st)
    case Success(caller) => Dispatch(caller, req, st, now)
  }

  /** Every route keeps a valid store valid. */
  lemma HandleKeepsValid(header: Option<string>, verify: string -> Option<Identity>, req: Request, st: Store, now: string)
    requires Valid(st)
    ensures Valid(Handle(header, verify, req, st, now).store)
  {
    var auth := Auth.Authenticate(header, verify);
    if auth.Success? {
      var caller := auth.value;
      match req
      case RegisterUser(body) =>
        Directory.RegisterKeepsValid(caller, body, st, now);
      case CreateInvoice(body) =>
        if Invoices.CreateInvoice(caller, body, st, now).result.Success? {
          Invoices.CreateFresh(caller, body, st, now);
        }
      case UpdateInvoice(id, edit) =>
        Invoices.UpdateKeepsValid(caller, id, edit, st);
      case DeleteInvoice(id) =>
        Invoices.DeleteKeepsValid(caller, id, st);
      case _ =>
    }
  }

  /**
    The role table of the service, for an existing invoice `k`: which
    (role, route) pairs are refused as Forbidden, with ownership taken into
    account where the route looks at it.
   */
  lemma PermissionMatrix(caller: Identity, st: Store, k: int, now: string, roleQuery: Option<string>,
                         body: Directory.Registration, newInvoice: Invoices.NewInvoice, edit: Invoices.InvoiceEdit)
    requires k in st.invoices
    ensures var inv := st.invoices[k];
      && (Dispatch(caller, ListUsers(roleQuery), st, now).result == Failure(Forbidden) <==>
            && !Text.AllSpace(roleQuery.GetOr(""))
            && (caller.role == Patient || (caller.role == Doctor && Text.Trim(roleQuery.GetOr("")) != "patient")))
      && (Dispatch(caller, RegisterUser(body), st, now).result == Failure(Forbidden) <==> caller.role != Admin)
      && (Dispatch(caller, DeleteInvoice(Some(k)), st, now).result == Failure(Forbidden) <==> caller.role != Admin)
      && (Dispatch(caller, CreateInvoice(newInvoice), st, now).result == Failure(Forbidden) <==> caller.role == Patient)
      && (Dispatch(caller, GetInvoice(Some(k)), st, now).result == Failure(Forbidden) <==>
            || (caller.role == Patient && inv.patientId != caller.id)
            || (caller.role == Doctor && inv.doctorId != caller.id))
      && (Dispatch(caller, UpdateInvoice(Some(k), edit), st, now).result == Failure(Forbidden) <==>
            || caller.role == Patient
            || (caller.role == Doctor && inv.doctorId != caller.id))
  {
    ListUsersGate(caller, st, now, roleQuery);
    AdminOnlyRoutes(caller, st, k, now, body);
    CreateGate(caller, st, now, newInvoice);
    OwnedRoutes(caller, st, k, now, edit);
  }

  /**
    Listing users is refused, once the role query is not blank, exactly to
    patients and to doctors asking for any role other than "patient".
   */
  lemma ListUsersGate(caller: Identity, st: Store, now: string, roleQuery: Option<string>)
    ensures Dispatch(caller, ListUsers(roleQuery), st, now).result == Failure(Forbidden) <==>
      && !Text.AllSpace(roleQuery.GetOr(""))
      && (caller.role == Patient || (caller.role == Doctor && Text.Trim(roleQuery.GetOr("")) != "patient"))
  {
  }

  /** Registration and deletion are refused exactly to non-admins. */
  lemma AdminOnlyRoutes(caller: Identity, st: Store, k: int, now: string, body: Directory.Registration)
    ensures Dispatch(caller, RegisterUser(body), st, now).result == Failure(Forbidden) <==> caller.role != Admin
    ensures Dispatch(caller, DeleteInvoice(Some(k)), st, now).result == Failure(Forbidden) <==> caller.role != Admin
  {
  }

  /** Creation is refused exactly to patients. */
  lemma CreateGate(caller: Identity, st: Store, now: string, newInvoice: Invoices.NewInvoice)
    ensures Dispatch(caller, CreateInvoice(newInvoice), st, now).result == Failure(Forbidden) <==> caller.role == Patient
  {
  }

  /** Reading and updating an existing invoice are refused by ownership. */
  lemma OwnedRoutes(caller: Identity, st: Store, k: int, now: string, edit: Invoices.InvoiceEdit)
    requires k in st.invoices
    ensures var inv := st.invoices[k];
      && (Dispatch(caller, GetInvoice(Some(k)), st, now).result == Failure(Forbidden) <==>
            || (caller.role == Patient && inv.patientId != caller.id)
            || (caller.role == Doctor && inv.doctorId != caller.id))
      && (Dispatch(caller, UpdateInvoice(Some(k), edit), st, now).result == Failure(Forbidden) <==>
            || caller.role == Patient
            || (caller.role == Doctor && inv.doctorId != caller.id))
  {
  }

  // ---------------------------------------------------------------------------
  // End-to-end scenarios
  // ---------------------------------------------------------------------------

  /** Doctor D bills patient P for a consultation (50) and an X-ray (75): total 125, unpaid, billed to D. */
  lemma DoctorBillsPatient(d: Identity, p: int, claimedDoctor: Invoices.BodyId, st: Store, now: string)
    requires d.role == Doctor && d.id in st.users && p in st.users
    ensures var items := [Item("Consult", Some(50.0)), Item("X-ray", Some(75.0))];
      var out := Invoices.CreateInvoice(d, Invoices.NewInvoice(Invoices.BodyId(true, Some(p)), claimedDoctor, Some(items)), st, now);
      && out.result.Success?
      && out.result.value.total == 125.0
      && out.result.value.status == "unpaid"
      && out.result.value.doctorId == d.id
      && out.result.value.patientId == p
  {
  }

  /** Two different patients see disjoint invoice lists: neither sees the other's invoices. */
  lemma PatientsSeparated(p: Identity, q: Identity, st: Store)
    requires p.role == Patient && q.role == Patient && p.id != q.id
    ensures forall v :: v in Invoices.ListInvoices(p, st) ==> v.patientId == p.id
    ensures forall v :: v in Invoices.ListInvoices(q, st) ==> v.patientId != p.id
  {
    var lp := Invoices.ListInvoices(p, st);
    var lq := Invoices.ListInvoices(q, st);
    forall v | v in lp ensures v.patientId == p.id {
      var i :| 0 <= i < |lp| && lp[i] == v;
      assert Invoices.MayView(p, Row(lp[i]));
    }
    forall v | v in lq ensures v.patientId != p.id {
      var i :| 0 <= i < |lq| && lq[i] == v;
      assert Invoices.MayView(q, Row(lq[i]));
    }
  }

  /** A receptionist settles invoice k with one 60 item: total 60, status "paid", parties unchanged. */
  lemma ReceptionistSettles(r: Identity, k: int, st: Store)
    requires r.role == Receptionist && k in st.invoices
    ensures var out := Invoices.UpdateInvoice(r, Some(k), Invoices.InvoiceEdit(Some([Item("Consult", Some(60.0))]), Some("paid")), st);
      && out.result.Success?
      && out.result.value.total == 60.0
      && out.result.value.status == "paid"
      && out.result.value.patientId == st.invoices[k].patientId
      && out.result.value.doctorId == st.invoices[k].doctorId
  {
  }
}
