/** The routes in front of the tables: each call passes the role gate of its
    route and then runs its handler.  The exclusive table locks taken by the
    fulfilment handler, and the per-call transactions of the others, make the
    calls take effect one after another, so a history of calls is a sequence of
    steps replayed from the starting tables. */
module Service {

  import opened Access
  import opened Tables

  /** One call to one of the four handlers, with its JSON inputs. */
  datatype Call =
    | FulfillCall(requestId: int, allocation: Option<int>)
    | UpdateInventoryCall(bloodType: Option<string>, newUnits: Option<int>)
    | DeleteRequestCall(requestId: int)
    | AddRequestCall(form: RequestForm)

  /** A call as it reaches the server: the caller's session, the call, and
      whether the database refuses the commit. */
  datatype Invocation = Invocation(session: Session, call: Call, commitFails: bool)

  /** The trace of a history: the tables at its end and one reply per call. */
  datatype Trace = Trace(final: Db, replies: seq<Reply>)

  const Admin := "Admin"
  const Recipient := "Recipient"

  /** The role each route's decorator names: the admin routes ask for
      `Admin`, request submission for `Recipient`. */
  function RequiredRole(call: Call): (role: Option<string>)
    ensures RoleRequired(role)
    ensures call.AddRequestCall? ==> role == Some(Recipient)
    ensures !call.AddRequestCall? ==> role == Some(Admin)
  {
    if call.AddRequestCall? then Some(Recipient) else Some(Admin)
  }

  /** One call: the gate first, and the handler only when the gate allows it. */
  function Handle(db: Db, inv: Invocation): (r: Step)
    // a refused call answers 401 or 403 and changes nothing
    ensures Authorize(inv.session, RequiredRole(inv.call)).Deny? ==>
              r.after == db && r.reply.Error? && r.reply.Code() in {401, 403}
    // an admin handler only ever runs for a logged-in Admin session
    ensures !inv.call.AddRequestCall? && r.after != db ==>
              inv.session.userId.Some? && inv.session.role == Some(Admin)
    ensures inv.call.AddRequestCall? && r.after != db ==>
              inv.session.userId.Some? && inv.session.role == Some(Recipient)
    // a call the gate allows gets exactly its handler's step
    ensures Authorize(inv.session, RequiredRole(inv.call)).Allow? ==>
              match inv.call
              case FulfillCall(id, allocation) => r == Tables.Fulfill(db, id, allocation, inv.commitFails)
              case UpdateInventoryCall(bt, units) => r == Tables.UpdateInventory(db, bt, units, inv.commitFails)
              case DeleteRequestCall(id) => r == Tables.DeleteRequest(db, id, inv.commitFails)
              case AddRequestCall(form) =>
                r == Tables.AddRequest(db, form, inv.session.userId.value, inv.session.region, inv.commitFails)
  {
    match Authorize(inv.session, RequiredRole(inv.call))
    case Deny(code, message) => Step(db, Error(code, message))
    case Allow =>
      match inv.call
      case FulfillCall(id, allocation) => Tables.Fulfill(db, id, allocation, inv.commitFails)
      case UpdateInventoryCall(bt, units) => Tables.UpdateInventory(db, bt, units, inv.commitFails)
      case DeleteRequestCall(id) => Tables.DeleteRequest(db, id, inv.commitFails)
      case AddRequestCall(form) =>
        Tables.AddRequest(db, form, inv.session.userId.value, inv.session.region, inv.commitFails)
  }

  /** The calls of a history applied one after another. */
  function Run(db: Db, history: seq<Invocation>): (t: Trace)
    ensures |t.replies| == |history|
    ensures t.final.nextId >= db.nextId
    decreases |history|
  {
    if history == [] then Trace(db, [])
    else
      var first := Handle(db, history[0]);
      var rest := Run(first.after, history[1..]);
      Trace(rest.final, [first.reply] + rest.replies)
  }

  /** Units taken from blood type `bt` by the successful fulfilments among `replies`. */
  function DeductedFrom(replies: seq<Reply>, bt: string): int
  {
    if replies == [] then 0
    else
      var here := if replies[0].RequestFulfilled? && replies[0].bloodGroup == bt
                  then replies[0].unitsDeducted else 0;
      here + DeductedFrom(replies[1..], bt)
  }

  /** True when no call of the history is an inventory upsert. */
  predicate NoUpserts(history: seq<Invocation>)
  {
    forall i :: 0 <= i < |history| ==> !history[i].call.UpdateInventoryCall?
  }

  /** True when no upsert of the history sets a negative count. */
  predicate UpsertsNonNegative(history: seq<Invocation>)
  {
    forall i :: 0 <= i < |history| ==>
      history[i].call.UpdateInventoryCall? && history[i].call.newUnits.Some? ==>
        history[i].call.newUnits.value >= 0
  }

  /** One call keeps every id below the serial. */
  lemma HandleKeepsIdsBelow(db: Db, inv: Invocation)
    requires IdsBelow(db)
    ensures IdsBelow(Handle(db, inv).after)
  {
  }

  /** Every history keeps every id below the serial, so an added request never
      overwrites an existing one. */
  lemma {:induction false} RunKeepsIdsBelow(db: Db, history: seq<Invocation>)
    requires IdsBelow(db)
    ensures IdsBelow(Run(db, history).final)
    decreases |history|
  {
    if history != [] {
      HandleKeepsIdsBelow(db, history[0]);
      RunKeepsIdsBelow(Handle(db, history[0]).after, history[1..]);
    }
  }

  /** A fulfilment never leaves a negative count, whatever the sign of the
      units deducted, because the stock check compares before subtracting;
      upserts keep the property when they set non-negative counts. */
  lemma HandleKeepsStockNonNegative(db: Db, inv: Invocation)
    requires StockNonNegative(db.inventory)
    requires inv.call.UpdateInventoryCall? && inv.call.newUnits.Some? ==> inv.call.newUnits.value >= 0
    ensures StockNonNegative(Handle(db, inv).after.inventory)
  {
  }

  /** No negative stock: from tables with no negative count, a history whose
      upserts set no negative count never produces one. */
  lemma {:induction false} RunKeepsStockNonNegative(db: Db, history: seq<Invocation>)
    requires StockNonNegative(db.inventory)
    requires UpsertsNonNegative(history)
    ensures StockNonNegative(Run(db, history).final.inventory)
    decreases |history|
  {
    if history != [] {
      HandleKeepsStockNonNegative(db, history[0]);
      RunKeepsStockNonNegative(Handle(db, history[0]).after, history[1..]);
    }
  }

  /** One call that is not an upsert takes from a blood type exactly the units
      its reply reports, and neither adds nor removes inventory rows. */
  lemma HandleConserves(db: Db, inv: Invocation, bt: string)
    requires !inv.call.UpdateInventoryCall?
    ensures Handle(db, inv).after.inventory.Keys == db.inventory.Keys
    ensures bt in db.inventory ==>
              Handle(db, inv).after.inventory[bt] == db.inventory[bt] - DeductedFrom([Handle(db, inv).reply], bt)
  {
  }

  /** Conservation: over a history without upserts, every blood type ends with
      its starting count less the units the successful fulfilments report
      having taken from it, and the set of blood types does not change. */
  lemma {:induction false} RunConserves(db: Db, history: seq<Invocation>, bt: string)
    requires NoUpserts(history)
    ensures Run(db, history).final.inventory.Keys == db.inventory.Keys
    ensures bt in db.inventory ==>
              Run(db, history).final.inventory[bt] == db.inventory[bt] - DeductedFrom(Run(db, history).replies, bt)
    decreases |history|
  {
    if history != [] {
      var first := Handle(db, history[0]);
      HandleConserves(db, history[0], bt);
      RunConserves(first.after, history[1..], bt);
      var rest := Run(first.after, history[1..]);
      assert Run(db, history).replies == [first.reply] + rest.replies;
      assert ([first.reply] + rest.replies)[1..] == rest.replies;
    }
  }

  /** One call never turns a Fulfilled request back to Pending: fulfilment only
      writes Fulfilled, deletion removes rows, and a new request takes a fresh id. */
  lemma HandleKeepsFulfilled(db: Db, inv: Invocation, id: int)
    requires IdsBelow(db)
    requires id in db.requests && db.requests[id].status == Fulfilled
    ensures id in Handle(db, inv).after.requests ==> Handle(db, inv).after.requests[id].status == Fulfilled
  {
  }

  /** Along any history a Fulfilled request stays Fulfilled until it is deleted;
      the only status change the handlers make is Pending to Fulfilled. */
  lemma {:induction false} RunKeepsFulfilled(db: Db, history: seq<Invocation>, id: int)
    requires IdsBelow(db)
    requires id in db.requests && db.requests[id].status == Fulfilled
    ensures id in Run(db, history).final.requests ==> Run(db, history).final.requests[id].status == Fulfilled
    decreases |history|
  {
    if history != [] {
      var first := Handle(db, history[0]);
      HandleKeepsFulfilled(db, history[0], id);
      HandleKeepsIdsBelow(db, history[0]);
      if id in first.after.requests {
        RunKeepsFulfilled(first.after, history[1..], id);
      } else {
        RunStaysDeleted(first.after, history[1..], id);
      }
    }
  }

  /** Once an id below the serial is absent, no later call brings it back:
      request ids are never reused. */
  lemma {:induction false} RunStaysDeleted(db: Db, history: seq<Invocation>, id: int)
    requires IdsBelow(db)
    requires id !in db.requests && id < db.nextId
    ensures id !in Run(db, history).final.requests
    decreases |history|
  {
    if history != [] {
      var first := Handle(db, history[0]);
      HandleKeepsIdsBelow(db, history[0]);
      RunStaysDeleted(first.after, history[1..], id);
    }
  }
}
