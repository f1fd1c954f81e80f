# Clinic billing: role-based access control and invoice lifecycle

A Dafny model of the decision logic in the clinic billing API (`server/index.js`).
Staff issue invoices to patients, and four roles see and change different parts
of the data:

- **admin** can do everything, including register users and delete invoices.
- **receptionist** can read and write every invoice but cannot delete.
- **doctor** works only with their own invoices and can list patients.
- **patient** can only read their own invoices.

The model covers:

- **Authentication** (`authRequired`). The token is the second space-separated
  field of the Authorization header. Signature and expiry checking is a
  parameter `verify: string -> Option<Identity>`.
- **The role gate** (`requireRole`).
- **The user directory**: list users by role, ordered by name, and admin-only
  registration.
- **The invoice routes**: list, create, get by id, update and delete.
- **The server-computed total**, folded from the coerced item amounts.
- **`hydrateInvoice`**, including what it does when a user is missing.

Every route is a pure function from the caller, the parsed request, and a
store value to a result plus the store it leaves behind (`Reply`). The store
holds two tables. Each table is a map from row id to row, plus the next
AUTOINCREMENT value. A refusal (`Rejection`) carries the error kind the
server encodes as an HTTP status: 400, 401, 403, 404, 409 or 500.

Files:

- `base.dfy` holds roles, identities, rejections and results.
- `text.dfy` holds `split(' ')`, `trim` and SQLite's BINARY collation.
- `auth.dfy` holds the header, the token and the role gate.
- `billing.dfy` holds items and the total.
- `tables.dfy` holds rows, the store invariant, the id-ordered scan and hydration.
- `directory.dfy` holds the users routes.
- `invoices.dfy` holds the invoice routes.
- `server.dfy` holds the request pipeline, the role table and end-to-end scenarios.

Behaviour of the code that the model keeps, where a reader might expect otherwise:

- The scheme word of the Authorization header is never compared with
  "Bearer". Any `word token` header works.
- A registration whose role is not one of the four is not a validation
  failure. The users table's CHECK constraint (line 26) rejects it, and the
  server answers 500. SQLite tests CHECK before UNIQUE, so a bad role wins
  over a duplicate email.
- The declared foreign keys (lines 38-39) are enforced. The SQLite build
  bundled with better-sqlite3 turns them on by default. So creating an
  invoice for a patient or doctor id with no user behind it fails with a
  store error (500) instead of storing a dangling reference. With users
  never deleted, `HydrateComplete` shows that `hydrateInvoice`'s missing-user
  branch never fires in a valid store. The model still handles it.
- `patient_id` and `doctor_id` in a new invoice are validated raw, with
  `!patient_id`, and never converted. So a string such as "0" or "abc"
  passes validation, and it is the foreign key that rejects it (500, not 400).
- Item amounts are not checked to be non-negative or numeric. A
  non-numeric amount adds 0 to the total.
- The users listing accepts any role string. A string that names no role
  gives an empty list, not an error.

## Model

| member | source | states |
|---|---|---|
| Base.ParseRole | server/index.js:26 | The role CHECK accepts a string exactly when it names one of the four roles, and the accepted string denotes that role (both directions of the round trip). |
| Base.RoleNameInjective | server/index.js:26 | Distinct roles have distinct names. |
| Text.JoinSplit | server/index.js:67 | Joining the fields of `split(' ')` with single spaces gives back the header. |
| Text.SplitJoin | server/index.js:67 | Splitting a space-joined list of space-free words gives back the words. |
| Text.Split | server/index.js:67 | `split(' ')` always yields at least one field, and no field contains a space. |
| Text.Trim | server/index.js:117 | `trim` gives a string with white space at neither end. It is empty exactly when the query was all white space. |
| Text.TrimContent | server/index.js:117 | The trimmed string is the piece of the query that lies between a run of leading and a run of trailing white space. |
| Text.TrimUnique | server/index.js:117 | Any text with no white space at its ends, padded on either side with white space, trims back to exactly that text. |
| Text.TrimIdempotent | server/index.js:117 | Trimming twice is the same as trimming once. |
| Text.LexLeTotal | server/index.js:127 | Any two names can be compared under the BINARY collation. |
| Text.LexLeTransitive | server/index.js:127 | The collation order is transitive. |
| Text.LexLeAntisymmetric | server/index.js:127 | Names that sort both ways are equal, so the collation is a total order. |
| Auth.BearerToken | server/index.js:66-68 | The token never contains a space. A missing header has no token. |
| Auth.TokenAfterScheme | server/index.js:66-67 | For any scheme word, `scheme token[ rest]` yields exactly `token`. |
| Auth.Authenticate | server/index.js:65-76 | No token gives Unauthorized. A token the verifier rejects gives InvalidToken. Otherwise the result is the identity the verifier decoded. No other outcome is possible. |
| Auth.AuthenticateBearer | server/index.js:65-76 | A `Bearer <token>` header authenticates exactly when the verifier accepts the token. |
| Auth.RequireRole | server/index.js:78-83 | The gate lets the request through exactly when the caller's role is listed. Otherwise it answers Forbidden. |
| Billing.Contribution | server/index.js:183 | Defines what one item adds: its numeric amount, or 0 when `Number(amount)` is NaN. This is the `Number(it.amount) \|\| 0` term. |
| Billing.Reduce | server/index.js:183 | The left-fold `reduce` over the items computes the reference sum of `Number(amount) \|\| 0`. |
| Billing.SumAppend | server/index.js:183 | The total of concatenated item lists is the sum of their totals. |
| Billing.SumSkipsNonNumeric | server/index.js:183 | An item whose amount is not a number leaves the total unchanged. |
| Billing.SumNonNegative | server/index.js:183 | Items with non-negative amounts give a non-negative total. |
| Tables.RowsDesc | server/index.js:136-138 | The scan returns exactly the ids in range whose row passes the filter, each once, in strictly descending order. |
| Tables.AddUserKeepsValid | server/index.js:22-23 | Inserting a user under a fresh AUTOINCREMENT id with an unused email keeps ids unique and below the counter, and keeps emails unique. |
| Tables.Empty | server/index.js:19-41 | The freshly created schema, with both tables empty, satisfies the store invariant, so `Valid` is not vacuous. |
| Tables.Hydrate | server/index.js:142-159 | The view carries the stored row unchanged. Patient and doctor name and email are present exactly when that user exists, and then they are that user's. |
| Tables.HydrateComplete | server/index.js:142-144 | In a valid store both parties of every stored invoice are found. |
| Directory.SortByName | server/index.js:127 | `ORDER BY name` yields a permutation of the selected rows that is sorted by name. |
| Directory.InsertSorted | server/index.js:127 | Inserting into a name-sorted list keeps it sorted. |
| Directory.UsersWithRole | server/index.js:127 | Every listed entry is a stored user whose role is the requested one. Every stored user with that role is listed. The list is sorted by name. When row ids are the keys, as in the table, no entry appears twice. |
| Directory.ListUsers | server/index.js:116-128 | An all-white-space or missing role query is a validation failure, checked before the caller's role. After that, the answer is Forbidden exactly for a patient and for a doctor whose trimmed query is not "patient". Admins and receptionists may list any role. |
| Directory.DoctorSeesOnlyPatients | server/index.js:125 | Everything a doctor can list has the patient role. |
| Directory.ListUsersExact | server/index.js:127 | In a valid store, whenever the listing succeeds, a user is listed if and only if its role name equals the trimmed query. |
| Directory.Register | server/index.js:100-112 | Non-admins are Forbidden before the body is validated. Any missing or empty field is a validation failure. A role outside the four is a store failure ("Failed to create user"), with the store unchanged. An email already present is a Conflict. Only the remaining case succeeds, adding one user with the given email, name and role under the next id. Every refusal leaves the store unchanged. |
| Directory.RegisterAddsOne | server/index.js:104-107 | A successful registration adds exactly one user, under an id not in use, and leaves every other user and all invoices as they were. |
| Directory.RegisterKeepsValid | server/index.js:104-107 | Registration keeps a valid store valid: the new id is fresh and the new email is unused, so email uniqueness still holds. |
| Directory.DuplicateEmailRejected | server/index.js:109 | Registering a valid role with an email already in the table is a Conflict that leaves the store unchanged. |
| Invoices.MayView | server/index.js:198-200 | Defines read permission: admins and receptionists read every invoice, a doctor those naming them as doctor, a patient those naming them as patient. |
| Invoices.MayEdit | server/index.js:211 | Defines update permission: admins, receptionists, and the invoice's own doctor. |
| Invoices.EditImpliesView | server/index.js:198-211 | Anyone allowed to update an invoice may read it. A patient may never update one, and may read exactly those naming them as patient. |
| Invoices.ListInvoices | server/index.js:161-172 | Every listed view is a stored invoice the caller may read, hydrated. Every stored invoice the caller may read is listed. |
| Invoices.HydrateAll | server/index.js:171 | Defines the response body: each scanned row hydrated, in scan order. |
| Invoices.ListDescending | server/index.js:136-138 | In a valid store the list is in strictly descending id order. |
| Invoices.ListScoping | server/index.js:164-170 | In a valid store, admins and receptionists get every invoice, a doctor exactly those with `doctor_id` equal to their id, and a patient exactly those with `patient_id` equal to their id. |
| Invoices.CreateInvoice | server/index.js:174-193 | Callers who are not admin, receptionist or doctor are Forbidden before any validation. A falsy patient id is a validation failure, as are a falsy doctor id from a non-doctor and a missing or empty item array. A body that passes validation but whose patient or resolved doctor names no user is a store failure ("Failed to create invoice"). A failure leaves the store unchanged. Success happens exactly when none of these applies. On success, the invoice gets the next id, the body's patient, the caller as doctor when the caller is a doctor, the body's items, their coerced sum as total, and status "unpaid". Only that row and the counter change. |
| Invoices.DoctorIdForced | server/index.js:182 | For a doctor, the `doctor_id` in the body has no effect on the outcome. |
| Invoices.CreateFresh | server/index.js:186 | In a valid store the new id was not in use, every existing invoice is unchanged, and the store stays valid. |
| Invoices.GetInvoice | server/index.js:195-205 | A missing id is NotFound for every caller, checked before ownership. An existing invoice is Forbidden exactly when the caller may not read it. Otherwise the result is the hydrated row. |
| Invoices.GetAgreesWithList | server/index.js:195-205 | In a valid store, fetching an invoice by id succeeds exactly when that invoice is in the caller's list. |
| Invoices.UpdateInvoice | server/index.js:207-225 | A missing id is NotFound. The permission check (admin, receptionist, or the invoice's stored doctor) comes next and answers Forbidden. A missing or empty item array or status is then a validation failure. A failure leaves the store unchanged. On success, only the items, the recomputed total and the status of that invoice change: ids, parties, creation time, other invoices, users and counters are kept. |
| Invoices.UpdateKeepsValid | server/index.js:214-218 | An update keeps a valid store valid, including the invariant that the total is the sum of the items. |
| Invoices.DeleteInvoice | server/index.js:227-230 | Non-admins are Forbidden and nothing changes. For an admin, `deleted` is true if and only if the id was present. Afterwards the id is absent, no other invoice changed, and the counters did not move. |
| Invoices.DeleteTwice | server/index.js:228-229 | Deleting the same id twice reports `false` the second time. |
| Invoices.DeleteKeepsValid | server/index.js:227-230 | A delete keeps a valid store valid. |
| Invoices.NoIdReuse | server/index.js:31 | After a delete, a newly created invoice never receives the deleted id. |
| Server.Handle | server/index.js:65-76 | On every route, a missing token is Unauthorized and a rejected token is InvalidToken, before any other check. An accepted token runs the route as exactly the identity the verifier decoded. No refusal writes to the store, and read-only routes never do. |
| Server.Dispatch | server/index.js:100-230 | The route table: each request runs its own handler. A refused request leaves the store as it was, and the three read-only routes never change it. |
| Server.HandleKeepsValid | server/index.js:174-230 | Every route keeps the store invariant: unique emails, ids below the counters, non-empty items, total equal to the sum, a status, and existing parties. |
| Server.PermissionMatrix | server/index.js:100-230 | For an existing invoice, this is the role table: listing users is Forbidden (for a non-blank query) exactly for patients and for doctors not asking for "patient", register and delete are Forbidden exactly for non-admins, create is Forbidden exactly for patients, get is Forbidden exactly for a non-owning patient or doctor, and update is Forbidden exactly for patients and non-owning doctors. |
| Server.ListUsersGate | server/index.js:116-126 | Listing users with a non-blank role query is Forbidden exactly for patients and for doctors whose trimmed query is not "patient". |
| Server.AdminOnlyRoutes | server/index.js:78-83 | Both routes mounted behind `requireRole(['admin'])`, registration and deletion, are Forbidden exactly for callers who are not admins. |
| Server.CreateGate | server/index.js:175-176 | Creating an invoice is Forbidden exactly for patients. Admins, receptionists and doctors are never Forbidden there. |
| Server.OwnedRoutes | server/index.js:195-212 | For an existing invoice, reading is Forbidden exactly for a patient or doctor it does not name, and updating exactly for patients and for doctors it does not name. |
| Server.DoctorBillsPatient | server/index.js:174-188 | A doctor billing an existing patient for items of 50 and 75 gets an invoice with total 125, status "unpaid", and the doctor's own id, whatever doctor id the body names. |
| Server.PatientsSeparated | server/index.js:168-170 | A patient's list holds only invoices naming them as patient, so a second patient sees none of the first's. |
| Server.ReceptionistSettles | server/index.js:207-220 | A receptionist replacing the items with one of 60 and setting status "paid" gets total 60 and status "paid", with patient and doctor unchanged. |

## Left out

- Express, cors, JSON bodies and `app.listen`. Results are the `Result` and `Reply` datatypes. `StatusCode` records the status each rejection is sent with.
- `/api/health` and `/api/auth/login`. Login compares passwords with bcrypt, an external library. Registration's bcrypt hash is not stored in `User`, because nothing in the model reads it.
- Token signing and the signature and expiry check. They are the `verify` parameter. A token whose role is none of the four can only come from outside the login route, so it is not modelled. The source would give such a caller an empty invoice list, read access to any invoice by id, and the user listing for any role (index.js:124-127), since only patients and doctors are refused there.
- Schema creation, the WAL pragma, demo-user seeding and console logging. These are bootstrap and diagnostics. Any valid store (`Tables.Valid`) stands for the seeded state.
- Store failures other than the foreign-key and role CHECK constraints, such as disk or I/O errors. They are failures of the database engine, not of this logic. The NOT NULL failure of `total` on non-finite amounts is listed under `Number` coercion below.
- `JSON.stringify` and `JSON.parse` of items. The round trip through storage is the identity.
- JavaScript `Number` coercion details. Path ids (`Number(req.params.id)`) are the integer they convert to, with `None` for NaN or a value that matches no row. Body ids are tested raw for truthiness and then stored under INTEGER affinity. `Invoices.BodyId` keeps these two views apart, and does not model how a given JSON value maps to them. Amounts are `Option<real>`. The total is an exact real, so the rounding of IEEE doubles and of the REAL column is not modelled. Non-finite amounts cannot be expressed either. An amount of "Infinity" next to "-Infinity" (or "1e999" next to "-1e999") makes the `reduce` yield NaN. SQLite binds NaN as NULL, which the `total REAL NOT NULL` column rejects. So create and update answer 500 ("Failed to create invoice", "Failed to update invoice"), where the model computes a finite total and succeeds.
- An `items` array holding `null` makes `it.amount` throw. The request then fails in Express's default error handler. Items are modelled as records, so this case is not represented.
- Non-string `status` values, a `role` query given as an array or object, and non-string registration fields. The model takes these fields as strings.
- `datetime('now')`, which is the `now` parameter.
- Concurrency. Each call is one atomic step on the store value.
- The order among users with equal names under `ORDER BY name`, which SQLite leaves unspecified. `Directory.SortByName` promises only sortedness and permutation.
- The React front end and the lint configuration. They carry no business rules.
