/**
 * The order service's admission rule: `POST /orders` fetches the user
 * collection once, scans it for the request's `userId`, and folds the three
 * outcomes (found, not found, unreachable) into one response and one decision
 * whether to persist. `GET /orders` reads the same store.
 */
module OrderService {
  import opened Wrappers
  import opened JsValues

  // ---------------------------------------------------------------------------
  // The remote existence check
  // ---------------------------------------------------------------------------

  /**
   * What `GET http://user-service:3001/users` gave back: the call was rejected
   * (no connection, a non-2xx status), or it delivered a decoded body.
   */
  datatype Remote = Down | Delivered(data: Value)

  /** Why the check could not decide: the call failed, or the scan threw. */
  datatype Cause = FetchFailed | ScanThrew

  /** The tri-state outcome of one existence check. */
  datatype CheckResult = Found | NotFound | Unreachable(cause: Cause)

  /** The outcome of `elems.find(u => u.id === userId)`. */
  datatype Scan = Match(user: Value) | NoMatch | Threw

  /** The scan reads `u.id` and moves on: `u` is not nullish and its id differs. */
  predicate Passes(u: Value, userId: Value) {
    IdOf(u).Some? && !StrictEquals(IdOf(u).value, userId)
  }

  /** `u.id === userId` holds and can be evaluated. */
  predicate IdMatches(u: Value, userId: Value) {
    IdOf(u).Some? && StrictEquals(IdOf(u).value, userId)
  }

  /** The scan visited every element before index k and passed over it. */
  predicate PassedBefore(elems: seq<Value>, userId: Value, k: int)
    requires 0 <= k <= |elems|
  {
    forall j :: 0 <= j < k ==> Passes(elems[j], userId)
  }

  /**
   * `Array.prototype.find` with the predicate `u => u.id === userId`: visits
   * the elements in order and stops at the first one whose id is strictly
   * equal, returning that element; reading the id of an undefined or null
   * element throws. The contract says where the scan stopped and why.
   */
  function FindUser(elems: seq<Value>, userId: Value): (r: Scan)
    ensures r.NoMatch? <==> PassedBefore(elems, userId, |elems|)
    ensures r.Match? ==> exists k :: 0 <= k < |elems| && PassedBefore(elems, userId, k)
                                     && IdMatches(elems[k], userId) && r.user == elems[k]
    ensures r.Threw? ==> exists k :: 0 <= k < |elems| && PassedBefore(elems, userId, k)
                                     && IsNullish(elems[k])
  {
    if elems == [] then NoMatch
    else match IdOf(elems[0])
      case None => assert PassedBefore(elems, userId, 0); Threw
      case Some(id) =>
        if StrictEquals(id, userId) then
          assert PassedBefore(elems, userId, 0);
          Match(elems[0])
        else
          var r := FindUser(elems[1..], userId);
          assert r.NoMatch? <==> PassedBefore(elems, userId, |elems|) by {
            if PassedBefore(elems[1..], userId, |elems| - 1) {
              forall j | 0 <= j < |elems| ensures Passes(elems[j], userId) {
                if j > 0 { assert elems[j] == elems[1..][j - 1]; }
              }
            }
            if PassedBefore(elems, userId, |elems|) {
              forall j | 0 <= j < |elems| - 1 ensures Passes(elems[1..][j], userId) {
                assert elems[1..][j] == elems[j + 1];
              }
            }
          }
          if r.Match? then
            var k :| 0 <= k < |elems| - 1 && PassedBefore(elems[1..], userId, k)
                     && IdMatches(elems[1..][k], userId) && r.user == elems[1..][k];
            ShiftPassed(elems, userId, k);
            assert elems[k + 1] == elems[1..][k];
            r
          else if r.Threw? then
            var k :| 0 <= k < |elems| - 1 && PassedBefore(elems[1..], userId, k)
                     && IsNullish(elems[1..][k]);
            ShiftPassed(elems, userId, k);
            assert elems[k + 1] == elems[1..][k];
            r
          else
            r
  }

  /** Passing over the head and then k elements of the tail is passing over k + 1 elements. */
  lemma ShiftPassed(elems: seq<Value>, userId: Value, k: int)
    requires 0 <= k < |elems| && Passes(elems[0], userId)
    requires PassedBefore(elems[1..], userId, k)
    ensures PassedBefore(elems, userId, k + 1)
  {
  }

  /**
   * The try block (order-service lines 51-56): one GET to the user service,
   * then the scan. A rejected call and a throwing scan (a reply that is not an
   * array, or a nullish element reached before a match) both land in the
   * catch. `if (!userExists)` tests the element `find` returned, so a match
   * only counts as Found when that element is truthy.
   */
  function CheckUser(remote: Remote, userId: Value): (r: CheckResult)
    ensures remote.Down? ==> r == Unreachable(FetchFailed)
    ensures remote.Delivered? && !remote.data.Array? ==> r == Unreachable(ScanThrew)
    ensures r == Found ==> remote.Delivered? && remote.data.Array?
    ensures remote.Delivered? && remote.data.Array? ==>
              (r == Found <==> exists k :: 0 <= k < |remote.data.elems|
                                           && PassedBefore(remote.data.elems, userId, k)
                                           && IdMatches(remote.data.elems[k], userId)
                                           && Truthy(remote.data.elems[k]))
    ensures remote.Delivered? && remote.data.Array? ==>
              (r == Unreachable(ScanThrew) <==> exists k :: 0 <= k < |remote.data.elems|
                                                            && PassedBefore(remote.data.elems, userId, k)
                                                            && IsNullish(remote.data.elems[k]))
    ensures r.Unreachable? && remote.Delivered? ==> r == Unreachable(ScanThrew)
  {
    match remote
    case Down => Unreachable(FetchFailed)
    case Delivered(data) =>
      if !data.Array? then Unreachable(ScanThrew)
      else
        var elems := data.elems;
        var s := FindUser(elems, userId);
        assert (exists k :: 0 <= k < |elems| && PassedBefore(elems, userId, k)
                            && IdMatches(elems[k], userId) && Truthy(elems[k]))
               ==> s.Match? && Truthy(s.user) by {
          if exists k :: 0 <= k < |elems| && PassedBefore(elems, userId, k)
                         && IdMatches(elems[k], userId) && Truthy(elems[k]) {
            var k :| 0 <= k < |elems| && PassedBefore(elems, userId, k)
                     && IdMatches(elems[k], userId) && Truthy(elems[k]);
            StoppedAtFirst(elems, userId, k, s);
          }
        }
        assert (exists k :: 0 <= k < |elems| && PassedBefore(elems, userId, k) && IsNullish(elems[k]))
               ==> s.Threw? by {
          if exists k :: 0 <= k < |elems| && PassedBefore(elems, userId, k) && IsNullish(elems[k]) {
            var k :| 0 <= k < |elems| && PassedBefore(elems, userId, k) && IsNullish(elems[k]);
            StoppedAtFirst(elems, userId, k, s);
          }
        }
        match s
        case Threw => Unreachable(ScanThrew)
        case NoMatch => NotFound
        case Match(u) => if Truthy(u) then Found else NotFound
  }

  /**
   * The scan stops at the first element it does not pass over: if element k is
   * the first such element, `find` throws there when it is nullish and returns
   * it when its id matches.
   */
  lemma StoppedAtFirst(elems: seq<Value>, userId: Value, k: int, s: Scan)
    requires 0 <= k < |elems| && PassedBefore(elems, userId, k) && !Passes(elems[k], userId)
    requires s == FindUser(elems, userId)
    ensures IsNullish(elems[k]) ==> s.Threw?
    ensures IdMatches(elems[k], userId) ==> s == Match(elems[k])
  {
    assert !s.NoMatch?;
    if s.Match? {
      var j :| 0 <= j < |elems| && PassedBefore(elems, userId, j)
               && IdMatches(elems[j], userId) && s.user == elems[j];
      assert !(j < k) && !(k < j);
    } else {
      var j :| 0 <= j < |elems| && PassedBefore(elems, userId, j) && IsNullish(elems[j]);
      assert !(j < k) && !(k < j);
    }
  }

  /**
   * No element makes the scan throw, and none can be a falsy match: every
   * element is a user record (as the user service's rows are), or is some
   * other non-nullish value while userId is defined (a primitive's `id` is
   * undefined, so it can then never match).
   */
  predicate Decisive(users: seq<Value>, userId: Value) {
    forall k :: 0 <= k < |users| ==>
      users[k].Object? || (!IsNullish(users[k]) && userId != Undefined)
  }

  /**
   * For such a reply the check never fails: it is Found exactly when some
   * element's id is strictly equal to `userId`, and NotFound otherwise.
   */
  lemma FoundIffSomeIdMatches(users: seq<Value>, userId: Value)
    requires Decisive(users, userId)
    ensures CheckUser(Delivered(Array(users)), userId) == Found
            <==> exists k :: 0 <= k < |users| && IdMatches(users[k], userId)
    ensures CheckUser(Delivered(Array(users)), userId) != Found ==>
              CheckUser(Delivered(Array(users)), userId) == NotFound
  {
  }

  // ---------------------------------------------------------------------------
  // The admission decision
  // ---------------------------------------------------------------------------

  /** The fields destructured from the request body; absent fields are undefined. */
  datatype OrderRequest = OrderRequest(userId: Value, product: Value, quantity: Value)

  /** A persisted order; `id` is the identifier storage assigns on creation. */
  datatype Order = Order(id: nat, userId: Value, product: Value, quantity: Value)

  datatype Body = Record(order: Order) | Listing(orders: seq<Order>) | Error(message: string)

  datatype Response = Response(status: nat, body: Body)

  /** What one POST answers, and the order it saves if it saves one. */
  datatype Decision = Decision(response: Response, saved: Option<Order>)

  const UserNotFound: string := "User not found"
  const CannotReachUserService: string := "Cannot reach User Service"

  /**
   * The three-way fold of order-service lines 54-64, given the check's result
   * and the identifier storage would assign next.
   */
  function Admit(check: CheckResult, req: OrderRequest, freshId: nat): (d: Decision)
    ensures d.saved.Some? <==> check == Found
    ensures check == Found ==>
              d.saved == Some(Order(freshId, req.userId, req.product, req.quantity))
              && d.response == Response(201, Record(d.saved.value))
    ensures check == NotFound ==> d.response == Response(400, Error(UserNotFound))
    ensures check.Unreachable? ==> d.response == Response(500, Error(CannotReachUserService))
  {
    match check
    case Found =>
      var order := Order(freshId, req.userId, req.product, req.quantity);
      Decision(Response(201, Record(order)), Some(order))
    case NotFound => Decision(Response(400, Error(UserNotFound)), None)
    case Unreachable(_) => Decision(Response(500, Error(CannotReachUserService)), None)
  }

  /** The whole POST handler as a function of the user service's reply. */
  function HandlePost(remote: Remote, req: OrderRequest, freshId: nat): (d: Decision)
    ensures d.saved.Some? <==> d.response.status == 201
    ensures d.response.status in {201, 400, 500}
    ensures d.response.status == 500 <==> CheckUser(remote, req.userId).Unreachable?
    ensures d.saved.Some? ==> d.saved.value.id == freshId && d.response.body == Record(d.saved.value)
  {
    Admit(CheckUser(remote, req.userId), req, freshId)
  }

  /**
   * An order is saved only when the fetched collection holds a truthy element
   * whose id is strictly equal to the request's userId, and the saved order
   * carries the request's fields and the fresh id.
   */
  lemma SavedOnlyForExistingUser(remote: Remote, req: OrderRequest, freshId: nat)
    requires HandlePost(remote, req, freshId).saved.Some?
    ensures remote.Delivered? && remote.data.Array?
    ensures exists k :: 0 <= k < |remote.data.elems|
                        && IdMatches(remote.data.elems[k], req.userId)
                        && Truthy(remote.data.elems[k])
    ensures HandlePost(remote, req, freshId).saved.value
            == Order(freshId, req.userId, req.product, req.quantity)
  {
  }

  /** A failed call to the user service yields 500 and saves nothing. */
  lemma DownMeans500(req: OrderRequest, freshId: nat)
    ensures HandlePost(Down, req, freshId)
            == Decision(Response(500, Error(CannotReachUserService)), None)
  {
  }

  /**
   * A reply whose scan throws gives 500 and saves nothing: a body that is not
   * an array, or an array in which a null or undefined element comes before
   * any element whose id matches.
   */
  lemma ThrowingScanMeans500(remote: Remote, req: OrderRequest, freshId: nat)
    requires remote.Delivered?
    requires !remote.data.Array? ||
             exists k :: 0 <= k < |remote.data.elems|
                         && PassedBefore(remote.data.elems, req.userId, k)
                         && IsNullish(remote.data.elems[k])
    ensures HandlePost(remote, req, freshId)
            == Decision(Response(500, Error(CannotReachUserService)), None)
  {
  }

  /**
   * For a reply that cannot make the scan throw (for instance a list of user
   * records): 201 with the new order when some element's id is strictly equal
   * to userId, and 400 with nothing saved otherwise.
   */
  lemma RecordsDecide(users: seq<Value>, req: OrderRequest, freshId: nat)
    requires Decisive(users, req.userId)
    ensures var d := HandlePost(Delivered(Array(users)), req, freshId);
            if exists k :: 0 <= k < |users| && IdMatches(users[k], req.userId) then
              d.saved == Some(Order(freshId, req.userId, req.product, req.quantity))
              && d.response == Response(201, Record(d.saved.value))
            else
              d == Decision(Response(400, Error(UserNotFound)), None)
  {
  }

  // ---------------------------------------------------------------------------
  // The order of events within one request
  // ---------------------------------------------------------------------------

  /** What a POST does, in the order it does it. */
  datatype Event = GetUsers | Decided(result: CheckResult) | Saved(order: Order) | Responded(response: Response)

  /** Some event of the request writes an order. */
  predicate Writes(events: seq<Event>) {
    exists i :: 0 <= i < |events| && events[i].Saved?
  }

  /**
   * The ordering a POST promises: exactly one GET to the user service and it
   * comes first (no retry); every write is preceded by a Found decision in the
   * same request; exactly one response and it comes last.
   */
  predicate WellOrdered(events: seq<Event>) {
    && |events| >= 2
    && events[0] == GetUsers
    && (forall i :: 0 < i < |events| ==> !events[i].GetUsers?)
    && events[|events| - 1].Responded?
    && (forall i :: 0 <= i < |events| - 1 ==> !events[i].Responded?)
    && (forall i :: 0 <= i < |events| && events[i].Saved? ==>
          exists j :: 0 <= j < i && events[j] == Decided(Found))
  }

  // ---------------------------------------------------------------------------
  // The user service, as the handler sees it
  // ---------------------------------------------------------------------------

  /**
   * The HTTP client's view of the user service: what `GET /users` answers
   * right now, and how many such calls have been issued.
   */
  class UserServiceClient {
    var reply: Remote
    var fetches: nat

    constructor (reply: Remote)
      ensures this.reply == reply && fetches == 0
    {
      this.reply := reply;
      fetches := 0;
    }

    /** One `axios.get('http://user-service:3001/users')`. */
    method FetchUsers() returns (r: Remote)
      modifies this`fetches
      ensures r == reply
      ensures fetches == old(fetches) + 1
    {
      r := reply;
      fetches := fetches + 1;
    }
  }

  // ---------------------------------------------------------------------------
  // The order store and the two routes
  // ---------------------------------------------------------------------------

  /**
   * The persistent order collection, new orders appended last, and the identifier
   * storage hands out next.
   */
  class OrderStore {
    var orders: seq<Order>
    var nextId: nat

    /** Identifiers increase along the sequence and are all below nextId. */
    ghost predicate Valid()
      reads this
    {
      && (forall i, j :: 0 <= i < j < |orders| ==> orders[i].id < orders[j].id)
      && (forall i :: 0 <= i < |orders| ==> orders[i].id < nextId)
    }

    constructor ()
      ensures Valid() && orders == [] && nextId == 0
    {
      orders := [];
      nextId := 0;
    }

    /** `GET /orders` (lines 43-46): every stored order, store untouched. */
    method ListOrders() returns (response: Response)
      ensures response == Response(200, Listing(orders))
    {
      response := Response(200, Listing(orders));
    }

    /**
     * `POST /orders` (lines 48-65). The new state and the response are those
     * HandlePost prescribes for the reply the single fetch delivered; the
     * events show the check precedes the write and the write happens only
     * after Found.
     */
    method PostOrder(users: UserServiceClient, req: OrderRequest) returns (response: Response, events: seq<Event>)
      requires Valid()
      modifies this, users`fetches
      ensures Valid()
      ensures users.fetches == old(users.fetches) + 1
      ensures var d := HandlePost(users.reply, req, old(nextId));
              && response == d.response
              && orders == old(orders) + (if d.saved.Some? then [d.saved.value] else [])
              && nextId == old(nextId) + (if d.saved.Some? then 1 else 0)
      ensures forall i :: 0 <= i < |old(orders)| ==> old(orders)[i].id != old(nextId)
      ensures WellOrdered(events) && events[|events| - 1] == Responded(response)
      ensures events[1] == Decided(CheckUser(users.reply, req.userId))
      ensures Writes(events) <==> CheckUser(users.reply, req.userId) == Found
      ensures forall i :: 0 <= i < |events| && events[i].Saved? ==>
                |orders| > 0 && events[i].order == orders[|orders| - 1]
    {
      var remote := users.FetchUsers();
      events := [GetUsers];
      var check := CheckUser(remote, req.userId);
      events := events + [Decided(check)];
      match check {
        case NotFound =>
          response := Response(400, Error(UserNotFound));
          events := events + [Responded(response)];
          return;
        case Unreachable(_) =>
          response := Response(500, Error(CannotReachUserService));
          events := events + [Responded(response)];
          return;
        case Found =>
      }
      var order := Order(nextId, req.userId, req.product, req.quantity);
      orders := orders + [order];
      nextId := nextId + 1;
      events := events + [Saved(order)];
      response := Response(201, Record(order));
      events := events + [Responded(response)];
      assert events[1] == Decided(Found) && events[2].Saved?;
    }
  }

  /** Two `GET /orders` with no POST between them answer the same sequence. */
  method ListTwice(store: OrderStore) returns (first: Response, second: Response)
    ensures first == second
    ensures first.body == Listing(store.orders)
  {
    first := store.ListOrders();
    second := store.ListOrders();
  }

  /** A known user: `POST {userId: 1, product: "pen", quantity: 3}` gives 201 and saves the order. */
  method ScenarioKnownUser() {
    var store := new OrderStore();
    var users := new UserServiceClient(Delivered(Array([Object(map["id" := Number(1.0)])])));
    var response, _ := store.PostOrder(users, OrderRequest(Number(1.0), Str("pen"), Number(3.0)));
    assert response == Response(201, Record(Order(0, Number(1.0), Str("pen"), Number(3.0))));
    assert store.orders == [Order(0, Number(1.0), Str("pen"), Number(3.0))];
  }

  /** An unknown user, and the string "1" for the user whose id is the number 1: 400, nothing saved. */
  method ScenarioUnknownUser() {
    var store := new OrderStore();
    var users := new UserServiceClient(Delivered(Array([Object(map["id" := Number(1.0)])])));
    var missing, _ := store.PostOrder(users, OrderRequest(Number(99.0), Str("pen"), Number(3.0)));
    assert missing == Response(400, Error(UserNotFound));
    var asText, _ := store.PostOrder(users, OrderRequest(Str("1"), Str("pen"), Number(3.0)));
    assert asText == Response(400, Error(UserNotFound));
    assert store.orders == [];
  }

  /** The user service is down: 500, nothing saved, one fetch issued. */
  method ScenarioServiceDown() {
    var store := new OrderStore();
    var users := new UserServiceClient(Down);
    var response, _ := store.PostOrder(users, OrderRequest(Number(1.0), Str("pen"), Number(3.0)));
    assert response == Response(500, Error(CannotReachUserService));
    assert store.orders == [] && users.fetches == 1;
  }
}
