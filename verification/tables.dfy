/**
  The two tables the routes read and write, as immutable values. Each table
  is a map from row id to row plus the next AUTOINCREMENT value, which only
  ever grows, so an id is never handed out twice, even after a delete.
 */
module Tables {
  import opened Base
  import opened Billing

  /** A row of the users table. The bcrypt password hash is not modelled. */
  datatype User = User(id: int, email: string, name: string, role: Role, createdAt: string)

  /** The columns `id, email, name, role` that routes return for a user. */
  datatype UserSummary = UserSummary(id: int, email: string, name: string, role: Role)

  function Summary(u: User): UserSummary
  {
    UserSummary(u.id, u.email, u.name, u.role)
  }

  /** A row of the invoices table; `items` is the JSON array stored verbatim. */
  datatype Invoice = Invoice(
    id: int,
    patientId: int,
    doctorId: int,
    items: seq<Item>,
    total: real,
    status: string,
    createdAt: string)

  datatype Store = Store(
    users: map<int, User>,
    nextUserId: int,
    invoices: map<int, Invoice>,
    nextInvoiceId: int)

  /** What a route returns together with the store it leaves behind. */
  datatype Reply<T> = Reply(result: Result<T>, store: Store)

  /** The foreign keys `patient_id` and `doctor_id` both name existing users. */
  predicate ReferencesExist(users: map<int, User>, patientId: int, doctorId: int)
  {
    patientId in users && doctorId in users
  }

  /** A stored invoice keeps the invariants every write establishes. */
  ghost predicate WellFormed(users: map<int, User>, inv: Invoice)
  {
    && inv.items != []
    && inv.total == Sum(inv.items)
    && inv.status != ""
    && ReferencesExist(users, inv.patientId, inv.doctorId)
  }

  /**
    The store invariant: row ids are the map keys and lie below the
    AUTOINCREMENT counters, emails are unique, and every invoice has a
    non-empty item list, the recomputed total, a status and existing parties.
   */
  ghost predicate Valid(st: Store)
  {
    && st.nextUserId >= 1
    && st.nextInvoiceId >= 1
    && (forall k :: k in st.users ==> 1 <= k < st.nextUserId && st.users[k].id == k)
    && (forall j, k :: j in st.users && k in st.users && st.users[j].email == st.users[k].email ==> j == k)
    && (forall k :: k in st.invoices ==>
          1 <= k < st.nextInvoiceId && st.invoices[k].id == k && WellFormed(st.users, st.invoices[k]))
  }

  predicate EmailTaken(users: map<int, User>, email: string)
  {
    exists k :: k in users && users[k].email == email
  }

  /** Inserting a user under the next id with an unused email keeps the store valid. */
  lemma AddUserKeepsValid(st: Store, user: User)
    requires Valid(st)
    requires user.id == st.nextUserId && !EmailTaken(st.users, user.email)
    ensures user.id !in st.users
    ensures Valid(st.(users := st.users[user.id := user], nextUserId := user.id + 1))
  {
    var st' := st.(users := st.users[user.id := user], nextUserId := user.id + 1);
    assert forall k :: k in st.users ==> st.users[k].email != user.email;
    forall k | k in st'.invoices ensures WellFormed(st'.users, st'.invoices[k]) {
      assert WellFormed(st.users, st.invoices[k]);
    }
  }

  /**
    The freshly created schema: both tables empty, both AUTOINCREMENT
    counters at their start. It satisfies `Valid`, so the invariant the
    routes preserve is one a real store can start from.
   */
  function Empty(): (st: Store)
    ensures Valid(st)
    ensures st.users == map[] && st.invoices == map[]
  {
    Store(map[], 1, map[], 1)
  }

  /**
    A table scan by descending rowid with a WHERE filter: the keys of `m` in
    [1, hi] whose row satisfies `keep`, each once, largest first.
   */
  function RowsDesc<V>(m: map<int, V>, hi: int, keep: V -> bool): (ids: seq<int>)
    ensures forall i :: 0 <= i < |ids| ==> 1 <= ids[i] <= hi && ids[i] in m && keep(m[ids[i]])
    ensures forall k :: 1 <= k <= hi && k in m && keep(m[k]) ==> k in ids
    ensures forall i, j :: 0 <= i < j < |ids| ==> ids[i] > ids[j]
    decreases hi
  {
    if hi < 1 then []
    else
      var rest := RowsDesc(m, hi - 1, keep);
      if hi in m && keep(m[hi]) then [hi] + rest else rest
  }

  // ---------------------------------------------------------------------------
  // hydrateInvoice
  // ---------------------------------------------------------------------------

  /** The `name` and `email` joined in for a referenced user. */
  datatype Party = Party(name: string, email: string)

  /**
    An invoice as routes return it. `patient` and `doctor` are `None` when the
    referenced user is missing, which the JSON shows as absent fields.
   */
  datatype InvoiceView = InvoiceView(
    id: int,
    patientId: int,
    patient: Option<Party>,
    doctorId: int,
    doctor: Option<Party>,
    items: seq<Item>,
    total: real,
    status: string,
    createdAt: string)

  function Lookup(users: map<int, User>, id: int): Option<Party>
  {
    if id in users then Some(Party(users[id].name, users[id].email)) else None
  }

  /** The stored row a view was built from: the view minus the joined fields. */
  function Row(v: InvoiceView): Invoice
  {
    Invoice(v.id, v.patientId, v.doctorId, v.items, v.total, v.status, v.createdAt)
  }

  /**
    `hydrateInvoice`: the stored row, unchanged, plus the name and email of the
    patient and of the doctor when those users exist.
   */
  function Hydrate(users: map<int, User>, inv: Invoice): (v: InvoiceView)
    ensures Row(v) == inv
    ensures v.patient.Some? <==> inv.patientId in users
    ensures v.patient.Some? ==> v.patient.value == Party(users[inv.patientId].name, users[inv.patientId].email)
    ensures v.doctor.Some? <==> inv.doctorId in users
    ensures v.doctor.Some? ==> v.doctor.value == Party(users[inv.doctorId].name, users[inv.doctorId].email)
  {
    InvoiceView(
      inv.id,
      inv.patientId, Lookup(users, inv.patientId),
      inv.doctorId, Lookup(users, inv.doctorId),
      inv.items, inv.total, inv.status, inv.createdAt)
  }

  /** In a valid store the missing-user branch never fires: every stored invoice hydrates with both parties. */
  lemma HydrateComplete(st: Store, k: int)
    requires Valid(st) && k in st.invoices
    ensures Hydrate(st.users, st.invoices[k]).patient.Some?
    ensures Hydrate(st.users, st.invoices[k]).doctor.Some?
  {
    assert WellFormed(st.users, st.invoices[k]);
  }
}
