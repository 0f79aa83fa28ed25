# Order admission and gateway routing, modelled in Dafny

The system is a set of small HTTP services behind an API gateway. Two pieces of it hold real logic, and this project models both and proves properties about them.

- **Order admission** (`order-service/index.js`). `POST /orders` fetches the whole user collection from the user service once. It scans that collection for an element whose `id` is strictly equal (`===`) to the request's `userId`. It then folds three outcomes into one response and one persist decision:
  - match: the order is saved and the response is 201 with the saved record;
  - no match: the response is 400 `{error: "User not found"}` and nothing is saved;
  - the fetch fails or the scan throws: the response is 500 `{error: "Cannot reach User Service"}` and nothing is saved.

  `GET /orders` reads the same store.
- **Gateway routing** (`api-gateway/index.js`). A fixed, ordered table of three proxy mounts (`/users`, `/orders`, `/products`) chooses the backend a request is forwarded to. A path that no mount applies to is never forwarded.

## Files and modules

- `wrappers.dfy`, module `Wrappers`: `Option`.
- `js_values.dfy`, module `JsValues`: JSON-decoded JavaScript values, given as tagged values so that `===` compares type and value. It also defines truthiness and reading a value's `id`.
- `order_service.dfy`, module `OrderService`:
  - the scan (`FindUser`) and the existence check (`CheckUser`);
  - the three-way decision (`Admit`, `HandlePost`);
  - `UserServiceClient`, a class holding the user service's current answer and a count of calls made;
  - `OrderStore`, a class holding a `seq<Order>` and a fresh-id counter. Its methods `PostOrder` and `ListOrders` model the two routes.
- `api_gateway.dfy`, module `Gateway`: the route table as a constant, mount matching, first-match lookup and dispatch.

## How the code's behaviour is modelled

- `FindUser` follows `Array.prototype.find` step by step (`order-service/index.js:53`). The elements are visited in order. Reading `u.id` from a `null` or `undefined` element throws, unless a match came earlier. A reply that is not an array has no `find` method, so the scan also throws. Every throw lands in the `catch` and gives 500.
- `find` returns the matched element, and line 54 tests `!userExists`. So a match counts as Found only when the matched element is truthy. For the user service's real rows, which are objects, this means exactly "some `id` is strictly equal to `userId`" (`FoundIffSomeIdMatches`). The same holds for any reply without null or undefined elements when `userId` is defined. A falsy element such as `0` can only match a missing `userId`, and it gives 400.
- Arrays and objects from the request body and from the user service's reply come from different JSON parses. They are therefore never the same reference, and `===` between them is always false.
- The stored order holds the request's `userId`, `product` and `quantity` exactly as they arrived.
- The events returned by `PostOrder` record the fetch, the decision, the write and the response, in the order they happen. `WellOrdered` states the required order: one fetch, first; no write without an earlier `Found` in the same request; one response, last.
- Gateway matching is the framework's behaviour, not this repository's code. The model assumes Express's default mount rule: after ASCII lower-casing, the path equals the prefix or starts with the prefix followed by `/`. The model also takes the `cors()` middleware (line 7) with its default options, which answer every `OPTIONS` request with 204 before any mount is tried.
- The user service's answer is a field of `UserServiceClient` (`Down`, or `Delivered` with a decoded body). The handler does two other pieces of I/O. The MongoDB write by `order.save()` is modelled as an append to the store. The log line in the `catch` is left out.

## Model

| member | source | states |
|---|---|---|
| `JsValues.StrictEquals` | order-service/index.js:53 | `===` holds exactly when both sides are the same primitive, with the same type and the same value; the string "1" never equals the number 1, and separately decoded objects or arrays never compare equal |
| `JsValues.IdOf` | order-service/index.js:53 | reading `u.id` throws exactly when `u` is undefined or null; an object yields its own `id` property, or undefined when it has none; every other value (primitives, arrays) yields undefined |
| `JsValues.Truthy` | order-service/index.js:54 | the test behind `!userExists`: a value is falsy exactly when it is undefined, null, false, 0 or ""; every array and object is truthy |
| `OrderService.FindUser` | order-service/index.js:53 | no match iff every element was passed over (non-nullish, id not strictly equal); a match returns the first element whose id is strictly equal, with all earlier elements passed over; a throw happens at a nullish element reached before any match |
| `OrderService.CheckUser` | order-service/index.js:51-60 | a failed fetch is Unreachable; a non-array reply is Unreachable because the scan throws; for an array reply, Found holds iff the first element the scan does not pass over has an id strictly equal to `userId` and is truthy, and Unreachable holds iff that element is null or undefined |
| `OrderService.StoppedAtFirst` | order-service/index.js:53 | the scan stops at the first element it does not pass over: it throws there if that element is nullish, and returns it if its id matches |
| `OrderService.FoundIffSomeIdMatches` | order-service/index.js:52-56 | for a reply of user records, or of any non-nullish values when `userId` is defined, the check is Found iff some element's id is strictly equal to `userId`, and NotFound otherwise: it never fails |
| `OrderService.Admit` | order-service/index.js:54-64 | an order is saved iff the check was Found; that order has the fresh id and the request's userId, product and quantity, and the response is 201 with it; NotFound gives 400 "User not found"; Unreachable gives 500 "Cannot reach User Service" |
| `OrderService.HandlePost` | order-service/index.js:48-65 | the whole handler as a function of the reply: an order is saved iff the answer is 201; the answer is always 201, 400 or 500; it is 500 iff the check was Unreachable; a saved order has the fresh id and is the body of the 201 answer |
| `OrderService.SavedOnlyForExistingUser` | order-service/index.js:51-64 | any POST that saves an order had an array reply holding a truthy element whose id is strictly equal to the request's userId, and the saved order carries the request's fields and the fresh id |
| `OrderService.DownMeans500` | order-service/index.js:51-60 | a failed call to the user service answers 500 "Cannot reach User Service" and saves nothing |
| `OrderService.ThrowingScanMeans500` | order-service/index.js:51-60 | a reply that is not an array, or an array with a null or undefined element before any matching element, answers 500 "Cannot reach User Service" and saves nothing |
| `OrderService.RecordsDecide` | order-service/index.js:51-64 | for a reply that cannot make the scan throw or match falsily: 201 with the new order when some id matches strictly, otherwise 400 "User not found" with nothing saved |
| `OrderService.UserServiceClient.FetchUsers` | order-service/index.js:52 | one call returns the user service's current answer and adds exactly one to the call count |
| `OrderService.OrderStore.ListOrders` | order-service/index.js:43-46 | `GET /orders` answers 200 with every stored order, in the store's order; it changes nothing |
| `OrderService.ListTwice` | order-service/index.js:43-46 | two `GET /orders` with no POST between them give the same answer |
| `OrderService.OrderStore.PostOrder` | order-service/index.js:48-65 | exactly one fetch; the response and new store are those `HandlePost` gives for the delivered answer (old orders kept, one order appended only on Found, the next id advanced only then); the new id differs from every stored id; the id order the store keeps still holds; the events are well ordered, the decision is the check of the delivered answer, a write occurs iff the check was Found, and a written event carries the order appended to the store |
| `Gateway.RouteTableShape` | api-gateway/index.js:10-12 | the table has exactly three entries in registration order (`/users` to user-service:3001, `/orders` to order-service:3002, `/products` to product-service:3003), with distinct backends, all with changeOrigin set |
| `Gateway.Mounts` | api-gateway/index.js:10-12 | the assumed Express mount rule, character by character: the path is at least as long as the prefix, agrees with it after ASCII lower-casing, and either ends there or continues with `/` |
| `Gateway.SharedPathNested` | api-gateway/index.js:10-12 | if one path is under two prefixes, the prefixes are equal or one is a segment-prefix of the other |
| `Gateway.NestedShared` | api-gateway/index.js:10-12 | conversely, nested prefixes do share a path |
| `Gateway.TableNotNested` | api-gateway/index.js:10-12 | no two prefixes of the table are nested |
| `Gateway.AtMostOneRoute` | api-gateway/index.js:10-12 | at most one mount of the table applies to any path |
| `Gateway.FirstMatch` | api-gateway/index.js:9-12 | the scan finds nothing iff no mount applies; otherwise it returns the first entry, in registration order, that applies to the path |
| `Gateway.Lookup` | api-gateway/index.js:9-12 | route selection over the gateway's table: no route iff no mount applies to the path; a selected route is a table entry that applies and has changeOrigin set |
| `Gateway.LookupSelects` | api-gateway/index.js:10-12 | a path that a mount applies to selects that mount and no other |
| `Gateway.UnderMount` | api-gateway/index.js:10-12 | every path of the form prefix + "/" + rest selects that prefix's entry |
| `Gateway.ProductsSubpath` | api-gateway/index.js:12 | `/products/abc` selects the product-service entry |
| `Gateway.SegmentBoundary` | api-gateway/index.js:10-12 | a longer path whose next character after the prefix is not `/` is not under that prefix |
| `Gateway.Dispatch` | api-gateway/index.js:7-14 | OPTIONS requests are answered as preflights; a forwarded request goes to the target of a mount that applies to its path; a request is left unforwarded (404) iff it is not OPTIONS and no mount applies |
| `Gateway.DispatchForwardsToMount` | api-gateway/index.js:10-12 | a non-preflight request under a mount is forwarded to that mount's backend |

## Left out

- Prometheus metrics (`order-service/index.js:11-29`, `67-71`): instrumentation with no effect on responses or on the store.
- Mongoose connection, schema and type casting (`order-service/index.js:32-40`): the store is abstract. Orders keep the request's values uncast, and storage identifiers are a natural-number counter instead of ObjectIds.
- Failure of `order.save()` (`order-service/index.js:63`): it is outside the `try`, so the source promises no response for it. The model's save always succeeds.
- `OrderService.OrderStore.ListOrders`: a rejected `Order.find()` (`order-service/index.js:44`) gives no 200 answer, and the model's read always succeeds.
- `OrderService.OrderStore.ListOrders`: `Order.find()` has no sort, so MongoDB returns its natural order, which is not guaranteed to be insertion order. The model keeps the orders in one fixed sequence, with appended orders last.
- `OrderService.OrderStore.PostOrder`: does not model the client disconnecting, or two requests running at once. Each request is handled alone, in sequence.
- Numbers are exact reals. IEEE double rounding, `NaN` and `-0` are not modelled, and JSON cannot carry `NaN` anyway.
- The axios transport: timeouts (the source sets none), status handling and JSON decoding are folded into the two answers `Down` and `Delivered(body)`.
- Logging (`console.error` at line 58) and the listen ports: I/O.
- Malformed request bodies, which `express.json()` rejects before the handler runs.
- Inside http-proxy-middleware: request streaming, host-header rewriting, mount-path stripping and backend-error statuses. That library is not part of this model, so `Dispatch` ends at the choice of target.
- `Gateway.Mounts`: Express's matching is not part of this model. It is stated as an assumption: ASCII case-insensitive, and the path equals the prefix or continues it with `/`. Percent-decoding and non-ASCII case folding are not modelled.
- user-service and product-service: plain CRUD over PostgreSQL and MongoDB, with startup table creation and `process.exit`. They have no local logic.
