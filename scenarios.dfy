/** Concrete histories against small tables, each stating what the handlers
    answer and what the tables hold afterwards. */
module Scenarios {

  import opened Access
  import opened Tables
  import opened Service

  const AdminSession := Session(Some(1), Some("Admin"), Some("North"))

  function OPosRequest(required: int, status: RequestStatus): Request
  {
    Request("2024-01-01", required, status, 7, Some("North"), "Emergency", "O+")
  }

  function Tables1(units: int, required: int): Db
  {
    Db(map["O+" := units], map[1 := OPosRequest(required, Pending)], 2)
  }

  /** Five units of O+ cover a request for three: two are left and the request
      is Fulfilled. */
  lemma FulfillWithEnoughStock()
    ensures var r := Fulfill(Tables1(5, 3), 1, None, false);
            && r.reply == RequestFulfilled(1, 3, "O+")
            && r.after.inventory == map["O+" := 2]
            && r.after.requests[1].status == Fulfilled
  {
  }

  /** Two units of O+ do not cover a request for three: 400 and nothing moves. */
  lemma FulfillWithTooLittleStock()
    ensures Fulfill(Tables1(2, 3), 1, None, false) == Step(Tables1(2, 3), Error(400, InsufficientStock))
  {
  }

  /** Two admin calls fulfilling request 1 (five units, five in stock), one
      after the other: the first takes all five, the second finds no stock
      left.  The refusal comes from the stock check, not from any status check. */
  lemma FulfillTwiceAgainstExactStock()
    ensures var call := Invocation(AdminSession, FulfillCall(1, None), false);
            var t := Run(Tables1(5, 5), [call, call]);
            && t.replies == [RequestFulfilled(1, 5, "O+"), Error(400, InsufficientStock)]
            && t.final.inventory == map["O+" := 0]
  {
    var call := Invocation(AdminSession, FulfillCall(1, None), false);
    var first := Handle(Tables1(5, 5), call);
    assert first.after.inventory == map["O+" := 0];
    var second := Handle(first.after, call);
    assert second.reply == Error(400, InsufficientStock);
    assert [call, call][1..] == [call];
    assert Run(first.after, [call]) == Trace(second.after, [second.reply]);
  }

  /** With ten in stock the same two calls both succeed: the request is
      fulfilled twice and ten units are gone. */
  lemma FulfillTwiceAgainstAmpleStock()
    ensures var call := Invocation(AdminSession, FulfillCall(1, None), false);
            var t := Run(Tables1(10, 5), [call, call]);
            && t.replies == [RequestFulfilled(1, 5, "O+"), RequestFulfilled(1, 5, "O+")]
            && t.final.inventory == map["O+" := 0]
  {
    var call := Invocation(AdminSession, FulfillCall(1, None), false);
    var first := Handle(Tables1(10, 5), call);
    assert first.after.inventory == map["O+" := 5];
    var second := Handle(first.after, call);
    assert second.after.inventory == map["O+" := 0];
    assert [call, call][1..] == [call];
    assert Run(first.after, [call]) == Trace(second.after, [second.reply]);
  }

  /** An id with no request: 404 and nothing moves. */
  lemma FulfillUnknownRequest()
    ensures Fulfill(Tables1(5, 3), 999, None, false) == Step(Tables1(5, 3), Error(404, RequestNotFound))
  {
  }

  /** An allocation of two against a request for five takes two, and the
      request is still marked Fulfilled. */
  lemma FulfillPartialAllocation()
    ensures var r := Fulfill(Tables1(10, 5), 1, Some(2), false);
            && r.reply == RequestFulfilled(1, 2, "O+")
            && r.after.inventory == map["O+" := 8]
            && r.after.requests[1].status == Fulfilled
  {
  }

  /** A failed commit after both writes rolls them back. */
  lemma FulfillCommitFailure()
    ensures Fulfill(Tables1(5, 3), 1, None, true) == Step(Tables1(5, 3), Error(500, DatabaseError))
  {
  }

  /** A recipient cannot fulfil: the gate answers 403 before any table is read. */
  lemma RecipientCannotFulfill()
    ensures var call := Invocation(Session(Some(7), Some("Recipient"), None), FulfillCall(1, None), false);
            Handle(Tables1(5, 3), call) == Step(Tables1(5, 3), Error(403, RoleNotAuthorized))
  {
  }
}
