/** The store as the handlers see it: the inventory and requests tables as
    mutable fields, and each handler as a method that reads them, returns early
    on every error, and otherwise writes them in place.  Every method is proved
    to have exactly the effect of the matching transition in `Tables`. */
module Store {

  import opened Access
  import opened Tables
  import Service

  class BloodBank {
    var inventory: map<string, int>
    var requests: map<int, Request>
    var nextId: int

    /** The tables as one value. */
    function Snapshot(): Db
      reads this
    {
      Db(inventory, requests, nextId)
    }

    /** Every request id is below the serial: the invariant `Service` proves of
        every history, kept by each method here. */
    ghost predicate Valid()
      reads this
    {
      IdsBelow(Snapshot())
    }

    constructor (db: Db)
      requires IdsBelow(db)
      ensures Valid() && Snapshot() == db
    {
      inventory, requests, nextId := db.inventory, db.requests, db.nextId;
    }

    /** `admin_fulfill_request`, with the rollback of both writes when the
        commit fails. */
    method Fulfill(id: int, allocation: Option<int>, commitFails: bool) returns (reply: Reply)
      requires Valid()
      modifies this
      ensures Valid()
      ensures Step(Snapshot(), reply) == Tables.Fulfill(old(Snapshot()), id, allocation, commitFails)
    {
      if id !in requests {
        return Error(404, RequestNotFound);
      }
      var req := requests[id];
      var units := UnitsToDeduct(allocation, req.requiredUnits);
      if req.bloodGroup !in inventory || inventory[req.bloodGroup] < units {
        return Error(400, InsufficientStock);
      }
      var savedInventory, savedRequests := inventory, requests;
      inventory := inventory[req.bloodGroup := inventory[req.bloodGroup] - units];
      requests := requests[id := req.(status := Fulfilled)];
      if commitFails {
        inventory, requests := savedInventory, savedRequests;
        return Error(500, DatabaseError);
      }
      reply := RequestFulfilled(id, units, req.bloodGroup);
    }

    /** `admin_update_inventory`: update the row if it exists, insert it otherwise. */
    method UpdateInventory(bloodType: Option<string>, newUnits: Option<int>, commitFails: bool) returns (reply: Reply)
      requires Valid()
      modifies this
      ensures Valid()
      ensures Step(Snapshot(), reply) == Tables.UpdateInventory(old(Snapshot()), bloodType, newUnits, commitFails)
    {
      if bloodType.None? || bloodType.value == "" || newUnits.None? {
        return Error(400, MissingInventoryFields);
      }
      var bt, units := bloodType.value, newUnits.value;
      var savedInventory := inventory;
      // the UPDATE sets the row when it exists; when it touches no row the
      // INSERT adds it, so either way the map holds `units` under `bt`
      inventory := inventory[bt := units];
      if commitFails {
        inventory := savedInventory;
        return Error(500, DatabaseError);
      }
      reply := InventorySet(bt, units);
    }

    /** `admin_delete_request`. */
    method DeleteRequest(id: int, commitFails: bool) returns (reply: Reply)
      requires Valid()
      modifies this
      ensures Valid()
      ensures Step(Snapshot(), reply) == Tables.DeleteRequest(old(Snapshot()), id, commitFails)
    {
      if id !in requests {
        return Error(404, RequestNotFound);
      }
      var savedRequests := requests;
      requests := requests - {id};
      if commitFails {
        requests := savedRequests;
        return Error(500, DatabaseError);
      }
      reply := RequestDeleted(id);
    }

    /** `add_request` for the logged-in recipient `recipientId`. */
    method AddRequest(form: RequestForm, recipientId: int, region: Option<string>, commitFails: bool) returns (reply: Reply)
      requires Valid()
      modifies this
      ensures Valid()
      ensures Step(Snapshot(), reply) == Tables.AddRequest(old(Snapshot()), form, recipientId, region, commitFails)
      // the insert never overwrites an existing request
      ensures forall k :: k in old(requests) ==> k in requests && requests[k] == old(requests)[k]
    {
      if form.date.None? || form.requiredUnits.None? || form.requestType.None? || form.bloodGroup.None? {
        return Error(400, MissingRequestFields);
      }
      var id := nextId;
      nextId := nextId + 1;
      var savedRequests := requests;
      requests := requests[id := NewRequest(form, recipientId, region)];
      if commitFails {
        requests := savedRequests;
        return Error(500, DatabaseError);
      }
      reply := RequestCreated(id);
    }

    /** A call through its route: the `login_required` gate, then the handler. */
    method Serve(inv: Service.Invocation) returns (reply: Reply)
      requires Valid()
      modifies this
      ensures Valid()
      ensures Step(Snapshot(), reply) == Service.Handle(old(Snapshot()), inv)
    {
      var decision := Authorize(inv.session, Service.RequiredRole(inv.call));
      if decision.Deny? {
        return Error(decision.code, decision.message);
      }
      match inv.call
      case FulfillCall(id, allocation) =>
        reply := Fulfill(id, allocation, inv.commitFails);
      case UpdateInventoryCall(bt, units) =>
        reply := UpdateInventory(bt, units, inv.commitFails);
      case DeleteRequestCall(id) =>
        reply := DeleteRequest(id, inv.commitFails);
      case AddRequestCall(form) =>
        reply := AddRequest(form, inv.session.userId.value, inv.session.region, inv.commitFails);
    }
  }
}
