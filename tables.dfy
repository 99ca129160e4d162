/** The two tables the admin handlers work on — inventory (blood type to unit
    count) and requests (request id to record) — and each handler's effect on
    them as a pure transition from the tables before the call to the tables
    after it, together with the reply it sends.  Each call is one atomic step:
    the handler either commits all its writes or leaves both tables as they were. */
module Tables {

  import opened Access

  datatype RequestStatus = Pending | Fulfilled

  /** A row of the requests table.  `date`, `requestType` and `region` are
      carried through unchanged; the handlers modelled here never read them. */
  datatype Request = Request(
    date: string,
    requiredUnits: int,
    status: RequestStatus,
    recipientId: int,
    region: Option<string>,
    requestType: string,
    bloodGroup: string)

  /** The state of the store: the inventory table, the requests table, and the
      next value of the serial that numbers new requests. */
  datatype Db = Db(inventory: map<string, int>, requests: map<int, Request>, nextId: int)

  /** The reply a handler sends.  The first four are successes; `Error` carries
      the HTTP status code and the error text. */
  datatype Reply =
    | RequestFulfilled(requestId: int, unitsDeducted: int, bloodGroup: string)
    | InventorySet(bloodType: string, units: int)
    | RequestDeleted(requestId: int)
    | RequestCreated(requestId: int)
    | Error(code: int, message: string)
  {
    function Code(): int
    {
      match this
      case RequestCreated(_) => 201
      case Error(c, _) => c
      case _ => 200
    }
  }

  /** A step of the store: the tables after a call and the reply to it. */
  datatype Step = Step(after: Db, reply: Reply)

  /** The JSON body of a new request; `None` means the key is absent. */
  datatype RequestForm = RequestForm(
    date: Option<string>,
    requiredUnits: Option<int>,
    requestType: Option<string>,
    bloodGroup: Option<string>)

  const RequestNotFound := "Request not found"
  const InsufficientStock := "Insufficient stock"
  const MissingInventoryFields := "Missing blood_type or new_units"
  const MissingRequestFields := "Missing required fields: date, required_units, request_type, blood_group"
  const DatabaseError := "Database error"

  /** Every request id is below the serial's next value, so a new request never
      lands on an existing row. */
  predicate IdsBelow(db: Db)
  {
    forall id :: id in db.requests ==> id < db.nextId
  }

  /** No blood type has a negative unit count. */
  predicate StockNonNegative(inventory: map<string, int>)
  {
    forall bt :: bt in inventory ==> inventory[bt] >= 0
  }

  /** Python truthiness of `allocated_units`: absent (the default 0), JSON null
      and 0 are falsy. */
  predicate Truthy(allocation: Option<int>)
  {
    allocation.Some? && allocation.value != 0
  }

  /** `allocated_units or required_units`. */
  function UnitsToDeduct(allocation: Option<int>, requiredUnits: int): int
  {
    if Truthy(allocation) then allocation.value else requiredUnits
  }

  /** The units to deduct are the allocation when one is given and non-zero,
      and the request's required units otherwise — an absent allocation, JSON
      null and 0 all fall back.  No sign check is made. */
  lemma UnitsToDeductChoice(allocation: Option<int>, requiredUnits: int)
    ensures allocation == None ==> UnitsToDeduct(allocation, requiredUnits) == requiredUnits
    ensures allocation == Some(0) ==> UnitsToDeduct(allocation, requiredUnits) == requiredUnits
    ensures allocation.Some? && allocation.value != 0 ==> UnitsToDeduct(allocation, requiredUnits) == allocation.value
  {
  }

  /** True when the inventory can cover `units` of blood type `bt`. */
  predicate HasStock(inventory: map<string, int>, bt: string, units: int)
  {
    bt in inventory && inventory[bt] >= units
  }

  /** `admin_fulfill_request`: look the request up, choose the units, check the
      stock of its blood group, deduct it and mark the request Fulfilled.
      `commitFails` stands for the database refusing the final COMMIT, after
      which the handler rolls both writes back and answers 500. */
  function Fulfill(db: Db, id: int, allocation: Option<int>, commitFails: bool): (r: Step)
    // an unknown id: 404 and nothing changes
    ensures id !in db.requests ==> r == Step(db, Error(404, RequestNotFound))
    // no inventory row, or too few units: 400 and nothing changes
    ensures id in db.requests ==>
              var req := db.requests[id];
              !HasStock(db.inventory, req.bloodGroup, UnitsToDeduct(allocation, req.requiredUnits)) ==>
                r == Step(db, Error(400, InsufficientStock))
    // success exactly when the request exists, stock suffices and the commit goes through
    ensures r.reply.RequestFulfilled? <==>
              id in db.requests && !commitFails &&
              HasStock(db.inventory, db.requests[id].bloodGroup,
                       UnitsToDeduct(allocation, db.requests[id].requiredUnits))
    // a refused commit after both checks pass: 500 and nothing changes
    ensures id in db.requests && commitFails &&
            HasStock(db.inventory, db.requests[id].bloodGroup,
                     UnitsToDeduct(allocation, db.requests[id].requiredUnits)) ==>
              r == Step(db, Error(500, DatabaseError))
    // every failure leaves both tables untouched
    ensures !r.reply.RequestFulfilled? ==> r.after == db && r.reply.Error?
    ensures r.reply.Code() in {200, 400, 404, 500}
    ensures r.reply.RequestFulfilled? ==>
              var req := db.requests[id];
              var bg := req.bloodGroup;
              var units := UnitsToDeduct(allocation, req.requiredUnits);
              && r.reply == RequestFulfilled(id, units, bg)
              // the blood group loses exactly the units deducted and cannot go negative
              && r.after.inventory.Keys == db.inventory.Keys
              && r.after.inventory[bg] == db.inventory[bg] - units
              && r.after.inventory[bg] >= 0
              && (forall bt :: bt in db.inventory && bt != bg ==> r.after.inventory[bt] == db.inventory[bt])
              // the request becomes Fulfilled and keeps every other field
              && r.after.requests.Keys == db.requests.Keys
              && r.after.requests[id] == req.(status := Fulfilled)
              && (forall other :: other in db.requests && other != id ==> r.after.requests[other] == db.requests[other])
              && r.after.nextId == db.nextId
  {
    if id !in db.requests then Step(db, Error(404, RequestNotFound))
    else
      var req := db.requests[id];
      var units := UnitsToDeduct(allocation, req.requiredUnits);
      if !HasStock(db.inventory, req.bloodGroup, units) then Step(db, Error(400, InsufficientStock))
      else if commitFails then Step(db, Error(500, DatabaseError))
      else
        var inventory := db.inventory[req.bloodGroup := db.inventory[req.bloodGroup] - units];
        var requests := db.requests[id := req.(status := Fulfilled)];
        Step(Db(inventory, requests, db.nextId), RequestFulfilled(id, units, req.bloodGroup))
  }

  /** `admin_update_inventory`: an upsert of one inventory row.  A missing or
      empty `blood_type`, or a missing `new_units`, is refused with 400; the
      new count is not validated. */
  function UpdateInventory(db: Db, bloodType: Option<string>, newUnits: Option<int>, commitFails: bool): (r: Step)
    ensures bloodType.None? || bloodType == Some("") || newUnits.None? ==>
              r == Step(db, Error(400, MissingInventoryFields))
    ensures r.reply.InventorySet? <==>
              bloodType.Some? && bloodType.value != "" && newUnits.Some? && !commitFails
    ensures bloodType.Some? && bloodType.value != "" && newUnits.Some? && commitFails ==>
              r == Step(db, Error(500, DatabaseError))
    ensures !r.reply.InventorySet? ==> r.after == db && r.reply.Error?
    ensures r.reply.Code() in {200, 400, 500}
    ensures r.reply.InventorySet? ==>
              var bt := bloodType.value;
              && r.reply == InventorySet(bt, newUnits.value)
              // the row exists afterwards, whether it was updated or inserted
              && r.after.inventory.Keys == db.inventory.Keys + {bt}
              && r.after.inventory[bt] == newUnits.value
              && (forall other :: other in db.inventory && other != bt ==> r.after.inventory[other] == db.inventory[other])
              && r.after.requests == db.requests
              && r.after.nextId == db.nextId
  {
    if bloodType.None? || bloodType.value == "" || newUnits.None? then
      Step(db, Error(400, MissingInventoryFields))
    else if commitFails then Step(db, Error(500, DatabaseError))
    else
      var bt := bloodType.value;
      Step(db.(inventory := db.inventory[bt := newUnits.value]), InventorySet(bt, newUnits.value))
  }

  /** `admin_delete_request`: remove one request by id. */
  function DeleteRequest(db: Db, id: int, commitFails: bool): (r: Step)
    ensures id !in db.requests ==> r == Step(db, Error(404, RequestNotFound))
    ensures r.reply.RequestDeleted? <==> id in db.requests && !commitFails
    ensures id in db.requests && commitFails ==> r == Step(db, Error(500, DatabaseError))
    ensures !r.reply.RequestDeleted? ==> r.after == db && r.reply.Error?
    ensures r.reply.Code() in {200, 404, 500}
    ensures r.reply.RequestDeleted? ==>
              && r.reply == RequestDeleted(id)
              && r.after.requests.Keys == db.requests.Keys - {id}
              && (forall other :: other in r.after.requests ==> r.after.requests[other] == db.requests[other])
              && r.after.inventory == db.inventory
              && r.after.nextId == db.nextId
  {
    if id !in db.requests then Step(db, Error(404, RequestNotFound))
    else if commitFails then Step(db, Error(500, DatabaseError))
    else Step(db.(requests := db.requests - {id}), RequestDeleted(id))
  }

  /** True when the form carries every key `add_request` asks for. */
  predicate Complete(form: RequestForm)
  {
    form.date.Some? && form.requiredUnits.Some? && form.requestType.Some? && form.bloodGroup.Some?
  }

  /** The row `add_request` inserts for a complete form. */
  function NewRequest(form: RequestForm, recipientId: int, region: Option<string>): Request
    requires Complete(form)
  {
    Request(form.date.value, form.requiredUnits.value, Pending, recipientId, region,
            form.requestType.value, form.bloodGroup.value)
  }

  /** `add_request`: insert a Pending request for the logged-in recipient under
      the serial's next id.  A rolled-back insert still uses up that value of
      the serial, since database sequences are not transactional. */
  function AddRequest(db: Db, form: RequestForm, recipientId: int, region: Option<string>, commitFails: bool): (r: Step)
    ensures !Complete(form) ==> r == Step(db, Error(400, MissingRequestFields))
    ensures r.reply.RequestCreated? <==> Complete(form) && !commitFails
    ensures !r.reply.RequestCreated? ==>
              r.reply.Error? && r.after.inventory == db.inventory && r.after.requests == db.requests
    ensures r.reply.Code() in {201, 400, 500}
    ensures Complete(form) ==> r.after.nextId == db.nextId + 1
    // a refused commit: 500, the tables unchanged, only the serial moved on
    ensures Complete(form) && commitFails ==>
              r == Step(db.(nextId := db.nextId + 1), Error(500, DatabaseError))
    ensures r.reply.RequestCreated? ==>
              var id := db.nextId;
              && r.reply == RequestCreated(id)
              && r.after.requests.Keys == db.requests.Keys + {id}
              // the new row is Pending, belongs to the caller, carries the
              // session's region and copies every field of the form
              && r.after.requests[id].status == Pending
              && r.after.requests[id].recipientId == recipientId
              && r.after.requests[id].region == region
              && r.after.requests[id].date == form.date.value
              && r.after.requests[id].requiredUnits == form.requiredUnits.value
              && r.after.requests[id].requestType == form.requestType.value
              && r.after.requests[id].bloodGroup == form.bloodGroup.value
              && (forall other :: other in db.requests && other != id ==> r.after.requests[other] == db.requests[other])
              && r.after.inventory == db.inventory
  {
    if !Complete(form) then Step(db, Error(400, MissingRequestFields))
    else
      var id := db.nextId;
      if commitFails then Step(db.(nextId := id + 1), Error(500, DatabaseError))
      else
        Step(Db(db.inventory, db.requests[id := NewRequest(form, recipientId, region)], id + 1),
             RequestCreated(id))
  }

  /** Fulfilment does not look at the status: a request that is already
      Fulfilled, with enough stock, is fulfilled again and its units are
      deducted a second time. */
  lemma RefulfilDeductsAgain(db: Db, id: int, allocation: Option<int>)
    requires id in db.requests && db.requests[id].status == Fulfilled
    requires HasStock(db.inventory, db.requests[id].bloodGroup, UnitsToDeduct(allocation, db.requests[id].requiredUnits))
    ensures var r := Fulfill(db, id, allocation, false);
            var bg := db.requests[id].bloodGroup;
            && r.reply.RequestFulfilled?
            && r.after.inventory[bg] == db.inventory[bg] - UnitsToDeduct(allocation, db.requests[id].requiredUnits)
            && r.after.requests == db.requests
  {
  }

  /** Two fulfilments of the same Pending request in a row, with stock for
      both, both succeed and take the units twice. */
  lemma FulfillTwiceDeductsTwice(db: Db, id: int)
    requires id in db.requests && db.requests[id].status == Pending
    requires HasStock(db.inventory, db.requests[id].bloodGroup, 2 * db.requests[id].requiredUnits)
    requires db.requests[id].requiredUnits >= 0
    ensures var first := Fulfill(db, id, None, false);
            var second := Fulfill(first.after, id, None, false);
            var bg := db.requests[id].bloodGroup;
            && first.reply.RequestFulfilled? && second.reply.RequestFulfilled?
            && second.after.inventory[bg] == db.inventory[bg] - 2 * db.requests[id].requiredUnits
  {
  }

  /** The upsert is last-write-wins: setting a blood type twice leaves what
      setting it once to the second value leaves, and setting it to the same
      value twice is the same as once. */
  lemma UpdateInventoryLastWriteWins(db: Db, bt: string, first: int, second: int)
    ensures UpdateInventory(UpdateInventory(db, Some(bt), Some(first), false).after, Some(bt), Some(second), false)
            == UpdateInventory(db, Some(bt), Some(second), false)
  {
  }

  /** Deleting the request just added restores the requests table; only the
      serial has moved on. */
  lemma DeleteUndoesAdd(db: Db, form: RequestForm, recipientId: int, region: Option<string>)
    requires IdsBelow(db) && Complete(form)
    ensures var added := AddRequest(db, form, recipientId, region, false);
            DeleteRequest(added.after, db.nextId, false) == Step(db.(nextId := db.nextId + 1), RequestDeleted(db.nextId))
  {
  }
}
