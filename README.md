# Blood-bank admin tables

A model of the admin-side bookkeeping of a Flask blood-bank backend: the
inventory table (blood type to unit count) and the requests table (request id
to a record of blood group, required units, status and recipient), and the four
handlers that change them:

- `admin_fulfill_request` looks a request up, chooses the units to deduct
  (`allocated_units or required_units`), checks the stock of the request's blood
  group, deducts it and marks the request `Fulfilled`. Each failure leaves both
  tables as they were. The whole handler runs in one transaction under exclusive
  table locks, so it is modelled as a single atomic step.
- `admin_update_inventory` upserts one inventory row.
- `admin_delete_request` removes one request.
- `add_request` inserts a `Pending` request for the logged-in recipient.

In front of each handler is the `login_required` role gate. It answers 401
when the session has no `user_id`. It answers 403 when a role is required and
the session's role differs. Otherwise the handler runs.

Layout:

- `access.dfy` (module `Access`): the session and the gate.
- `tables.dfy` (module `Tables`): the rows, the tables and the replies. Each
  handler is a pure transition from the tables before a call to the tables after
  it, and each contract states that handler's error cases, frame and effect.
- `service.dfy` (module `Service`): the routes. A call is gated and then
  dispatched. The locks and per-call transactions make calls take effect one
  after another, so a history of calls is replayed in order. The lemmas prove
  invariants over every history.
- `store.dfy` (module `Store`): class `BloodBank`. Its fields hold the two
  tables and the request-id serial. Each handler is a method that returns early
  on every error and writes the fields in place. Each method is proved to have
  exactly the effect of its transition in `Tables`.
- `scenarios.dfy` (module `Scenarios`): concrete histories.

Two behaviours of the code are kept as written:

- Fulfilment does not read the request's status. Fulfilling a `Fulfilled`
  request with enough stock deducts the units again
  (`Tables.RefulfilDeductsAgain`, `Scenarios.FulfillTwiceAgainstAmpleStock`).
- `allocated_units`, `new_units` and `required_units` are not validated. A
  negative allocation passes the stock check and raises the count.

A database error is modelled by one flag, `commitFails`: the COMMIT raises, the
handler rolls back and answers 500, and the tables are unchanged. The
request-id serial is the one exception. It advances even for a rolled-back
`add_request`, because database sequences are not transactional. Request ids
come from that serial (`Db.nextId`). The view `all_requests`, which fulfilment
reads, is taken to show the rows of `requests`.

## Model

| member | source | states |
|---|---|---|
| `Access.Authorize` | app.py:38-48 | 401 exactly when the session has no `user_id`; 403 exactly when a required (truthy) role differs from the session's role, an absent one included; allow exactly when logged in and the role matches or none is required |
| `Access.AllowedMeansLoggedInWithRole` | app.py:42-46 | for a required role the handler runs iff the session is logged in with exactly that role; with no role required, iff logged in |
| `Tables.UnitsToDeductChoice` | app.py:444-469 | the units to deduct are `allocated_units` when present and non-zero; absent, null and 0 fall back to the request's `required_units`; no sign check |
| `Tables.Fulfill` | app.py:441-497 | unknown id: 404 "Request not found", nothing changes; no inventory row or too few units: 400 "Insufficient stock", nothing changes; success iff the request exists, stock suffices and the commit succeeds; on success the blood group's count drops by exactly the units deducted and stays at or above 0, every other blood type keeps its count, the request becomes Fulfilled and keeps every other field, every other request is unchanged; a refused commit after both checks answers 500 "Database error" and leaves both tables untouched |
| `Tables.UpdateInventory` | app.py:500-527 | missing or empty `blood_type`, or missing `new_units`: 400, nothing changes; otherwise the row for the blood type exists afterwards with exactly `new_units`, whether updated or inserted, and no other blood type or request changes; a refused commit answers 500 with nothing changed |
| `Tables.DeleteRequest` | app.py:601-616 | absent id: 404, nothing changes; present id: removed, every other request and the inventory unchanged; a refused commit answers 500 with nothing changed |
| `Tables.AddRequest` | app.py:202-227 | a missing field among date, required_units, request_type, blood_group: 400, nothing changes; otherwise a new row under the serial's next id, status Pending, owned by the session's user, carrying the session's region and copying date, required_units, request_type and blood_group from the form, with nothing else changed; a refused commit answers 500, leaves both tables unchanged and still uses up the serial value |
| `Tables.RefulfilDeductsAgain` | app.py:456-487 | fulfilment does not read the status: an already Fulfilled request with enough stock is fulfilled again, its units are deducted again and it stays Fulfilled |
| `Tables.FulfillTwiceDeductsTwice` | app.py:468-487 | two fulfilments of one Pending request in a row, with stock for both, both succeed and take the units twice |
| `Tables.UpdateInventoryLastWriteWins` | app.py:512-520 | two upserts of one blood type leave what the second alone leaves |
| `Tables.DeleteUndoesAdd` | app.py:607-611 | deleting the request just added restores the requests table and inventory; only the serial has advanced |
| `Service.RequiredRole` | app.py:203 | request submission requires the role `Recipient` and every admin route requires `Admin`; a role is always required |
| `Service.Handle` | app.py:38-48 | a call the gate refuses answers 401 or 403 and changes nothing; a call it allows gets exactly the step of its handler in `Tables`; an admin handler changes the tables only for a logged-in Admin session, request submission only for a logged-in Recipient |
| `Service.Run` | app.py:450-452 | a history of calls applied one after another yields one reply per call and never moves the serial backwards |
| `Service.HandleKeepsIdsBelow` | app.py:214-218 | one call keeps every request id below the serial |
| `Service.RunKeepsIdsBelow` | app.py:214-218 | every history keeps every request id below the serial, so an insert never overwrites a row |
| `Service.HandleKeepsStockNonNegative` | app.py:472-482 | one call leaves no negative count, given the upsert sets none; fulfilment cannot make a count negative whatever the sign of the deduction |
| `Service.RunKeepsStockNonNegative` | app.py:472-482 | no negative stock over any history whose upserts set non-negative counts |
| `Service.HandleConserves` | app.py:479-482 | a call other than an upsert takes from a blood type exactly the units its reply reports and adds or removes no inventory row |
| `Service.RunConserves` | app.py:479-482 | over any history without upserts, each blood type ends at its starting count less the units the successful fulfilments report taking from it |
| `Service.HandleKeepsFulfilled` | app.py:485-487 | no call turns a Fulfilled request back to Pending |
| `Service.RunKeepsFulfilled` | app.py:485-487 | along any history a Fulfilled request stays Fulfilled until deleted |
| `Service.RunStaysDeleted` | app.py:607-611 | a deleted request id never reappears; ids are not reused |
| `Store.BloodBank.Fulfill` | app.py:441-497 | the method's new tables and reply are exactly those of `Tables.Fulfill`; on a failed commit both writes are rolled back; the id invariant is kept |
| `Store.BloodBank.UpdateInventory` | app.py:500-527 | the method's new tables and reply are exactly those of `Tables.UpdateInventory` |
| `Store.BloodBank.DeleteRequest` | app.py:601-616 | the method's new tables and reply are exactly those of `Tables.DeleteRequest` |
| `Store.BloodBank.AddRequest` | app.py:202-227 | the method's new tables, serial and reply are exactly those of `Tables.AddRequest`; no existing request is overwritten; the id invariant is kept |
| `Store.BloodBank.Serve` | app.py:38-48 | gating and then running a handler in place has exactly the effect of `Service.Handle` |
| `Scenarios.FulfillWithEnoughStock` | app.py:468-491 | O+ 5, request for 3: 2 left, request Fulfilled, 3 reported |
| `Scenarios.FulfillWithTooLittleStock` | app.py:472-476 | O+ 2, request for 3: 400 and nothing moves |
| `Scenarios.FulfillTwiceAgainstExactStock` | app.py:456-487 | two admin fulfilments of a 5-unit request against 5 units: the first succeeds, the second is refused by the stock check (400), not by a status check |
| `Scenarios.FulfillTwiceAgainstAmpleStock` | app.py:456-487 | the same two calls against 10 units both succeed and take 10 |
| `Scenarios.FulfillUnknownRequest` | app.py:460-466 | an id with no request: 404 and nothing moves |
| `Scenarios.FulfillPartialAllocation` | app.py:469-487 | an allocation of 2 against a request for 5 takes 2 and marks the request Fulfilled |
| `Scenarios.FulfillCommitFailure` | app.py:489-495 | a failed commit answers 500 with both tables as before |
| `Scenarios.RecipientCannotFulfill` | app.py:442 | a Recipient session is refused with 403 and nothing moves |

## Left out

- Flask routing, JSON and HTML response shaping, redirects, CORS and templates: framework plumbing. Replies keep only the status code, the error text and the values the success message reports.
- The psycopg2 connection, cursors and `get_db`: database I/O. A database error is modelled only as a refused COMMIT. An exception raised by an earlier statement also ends in 500 with no change, and the model does not say which statement raised.
- JSON values of the wrong type, such as a string `allocated_units` or a float `new_units`, and a JSON null under a required key of a new request: the model's inputs are integers and strings, and an absent key or null is `None`. A request body that is not JSON at all is not modelled.
- `LOCK TABLE ... IN EXCLUSIVE MODE` and `FOR UPDATE`: the locking belongs to the database. The model treats every call as one atomic step, taken one after another.
- `last_updated = CURRENT_TIMESTAMP`: wall-clock time, not a field of the model.
- Foreign-key failures when deleting a request: these are the database's constraints, not visible in the code. They fall under the 500 path above.
- bcrypt hashing, login, logout and register: an external library and session plumbing. The session is an input of the gate.
- `admin_privileges`: it sends caller-supplied text to the database as a command, so it has no logic to model.
- Read-only listings, `admin_stats`, analytics, `strftime_filter`, the dashboard pages and the user, donation, hospital, appointment and transaction routes: SQL pass-through and rendering.
- tempCodeRunnerFile.py: an older copy of the routes with no logic of its own.
