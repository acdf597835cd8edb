# In-memory order service, modelled in Dafny

This project models the order service in `server.js`. The service keeps its orders in a
module-level array and serves two routes:

- `POST /orders` reads `numeroPedido`, `valorTotal`, `dataCriacao` and `items` from the JSON
  body. It answers 400 when any of the four is falsy. Otherwise it maps the payload to a
  normalized record: `orderId`, `value`, `creationDate`, and `items` of
  `{productId, quantity, price}` taken from each item's `idItem`, `quantidadeItem` and
  `valorItem`. It pushes the record onto `orders` and answers 201 with the record. Any
  exception inside the handler is caught and answered with 500.
- `GET /order/:id` answers 200 with the first stored record whose `orderId` is strictly equal
  to the path id. It answers 404 when there is none.

Files:

- `js_values.dfy`: the JSON values a request body can hold, plus `undefined`. It also defines
  JavaScript truthiness and property reads (`JsValues`), and the `Option` type (`Wrappers`).
- `order_server.dfy`: the records, the payload mapping as functions, and the class
  `OrderStore`. Its `orders` field is the array, `Create` is the POST handler (a method that
  appends) and `Get` is the GET handler (a function that reads).
- `order_properties.dfy`: lemmas that relate several definitions or several requests.

Modelling choices:

- `orderId` keeps the raw body value instead of being forced to a string. Strict equality
  against the string path parameter is then exactly `orderId == Str(id)`. So a record created
  with a numeric `numeroPedido` is stored but can never be fetched (`NonStringIdNeverFound`).
- Inside the handler the model answers 500 in three cases: the body is `null` or `undefined`
  (destructuring fails); `items` is truthy but not an array (it has no callable `map`); or an
  element of `items` is `null` or `undefined` (reading `idItem` fails). In each case the push
  has not happened yet, so the store is unchanged. JavaScript has a fourth throwing path that
  the model does not capture: the date and number conversions can throw (see "## Left out").
- The code keeps its orders in an in-process array. It has no relational store and no update,
  delete, list or transaction logic. Its payload keys are Portuguese and its read path is
  `/order/:id`; the model follows the code in all of this.

## Model

| member | source | states |
|---|---|---|
| `JsValues.Truthy` | server.js:16 | the `!x` test of the guard: `null`, `undefined` and `false` are falsy and `true` is truthy, every array and object is truthy (even an empty one), a number is truthy exactly when it is not 0 and a string exactly when it is not empty |
| `JsValues.Member` | server.js:13 | reading `v.key` from a non-nullish value gives the object's own value for that key, and `undefined` when the key is absent or the value is not an object |
| `OrderServer.Destructure` | server.js:13 | the four fields are read from the body object, `undefined` where a key is absent; a body that is not an object (an array, string, number or boolean) never passes the guard |
| `OrderServer.HasRequiredFields` | server.js:16 | passing the guard implies every required field is present and `items` is truthy; when `items` is truthy (in particular any array, even an empty one), the guard holds exactly when the other three fields are truthy |
| `OrderProperties.RejectedExactlyWhenFieldFalsy` | server.js:16-20 | for an object body, the create outcome is 400 exactly when one of `numeroPedido`, `valorTotal`, `dataCriacao`, `items` is missing or falsy |
| `OrderServer.MapItems` | server.js:27-31 | `items.map` fails exactly when some element is null or undefined. Otherwise the result has the same length, and item i takes its product id, quantity and price from element i's `idItem`, `quantidadeItem` and `valorItem` |
| `OrderServer.MapOrder` | server.js:23-32 | building the record fails exactly when `items` is not an array of non-nullish values. Otherwise the record is the normalization of the payload (`MapsTo`): `orderId = numeroPedido`, `value = valorTotal`, the date built from `dataCriacao`, and items mapped one to one and in order |
| `OrderServer.CreateResponse` | server.js:12-47 | the create outcome is always 400, 201 or 500. It is 400 exactly when the body can be destructured and a required field is falsy. It is 500 exactly when the body is nullish, or the fields pass and the items cannot be mapped. A 201 carries the normalization of the payload |
| `OrderServer.FirstMatch` | server.js:60 | `find` gives the first index whose `orderId` is strictly equal to the string `id`, with no earlier match. It gives none exactly when no record matches |
| `OrderServer.OrderStore.constructor` | server.js:8 | the store starts empty |
| `OrderServer.OrderStore.Create` | server.js:11-48 | the response is `CreateResponse(body)`. On 201 exactly one record, the one returned, is appended at the end and earlier records are unchanged. On 400 and 500 the store is unchanged |
| `OrderServer.OrderStore.Get` | server.js:56-71 | the response is 200 or 404. It is 404 exactly when no stored record has `orderId` equal to `id`. A 200 carries a stored record with that id that has no matching record before it. Reads the store only |
| `OrderProperties.MapOrderIsTheMapping` | server.js:23-32 | the computed record and the normalization relation agree both ways: `MapOrder(p) == Some(o)` if and only if `MapsTo(p, o)`, so the mapping is a function of the payload |
| `OrderProperties.FalsyFieldRejected` | server.js:16-20 | a `valorTotal` that is present but equal to 0 gives 400 |
| `OrderProperties.EmptyOrderNumberRejected` | server.js:16-20 | a `numeroPedido` that is present but the empty string gives 400 |
| `OrderProperties.MissingItemsRejected` | server.js:16-20 | a body object without `items` gives 400 |
| `OrderProperties.EmptyItemsAccepted` | server.js:16-32 | an empty `items` array passes validation, and the created record has no items |
| `OrderProperties.NonArrayItemsFail` | server.js:27-47 | when the other three required fields are truthy, a truthy non-array `items` gives 500 |
| `OrderProperties.NullItemFails` | server.js:27-47 | when the other three required fields are truthy, a `null` element in an `items` array gives 500 |
| `OrderProperties.FirstMatchAppend` | server.js:60 | appending a record keeps an existing first match. Without one, the new record is the match exactly when its id equals `id` |
| `OrderProperties.DuplicateIdShadowed` | server.js:35 | with no uniqueness check, creating a record whose id is already stored still appends it, and lookups keep returning the older record |
| `OrderProperties.NonStringIdNeverFound` | server.js:60 | a record created from a non-string `numeroPedido` never changes any lookup result |
| `OrderProperties.ReplayAppendOnly` | server.js:35 | over any sequence of create requests, the earlier store is a prefix of the later one, which grows by at most one record per request |
| `OrderProperties.ReplayKeepsFirstMatch` | server.js:35-60 | once an id can be fetched, later creates never change which record it fetches |
| `OrderProperties.CreateThenFetch` | server.js:11-71 | creating order "A1" with one item `{7, 2, 50}` on a fresh store and then fetching "A1" returns that record, with exactly that one item |

## Left out

- Express setup, the JSON body parser, `app.listen` and console logging (server.js:1-6, 50-53).
  The model starts from the parsed body. A body that the parser itself rejects never reaches
  the handler.
- database.js: the MySQL connection pool is configured but never used by the routes, so it is
  not part of this model.
- `new Date(dataCriacao)` (server.js:26): date parsing is left uninterpreted. The record holds
  `DateOf(raw)`, the value the constructor was applied to.
- `Number(item.idItem)` (server.js:28): numeric coercion, including NaN, is left
  uninterpreted. The product id is `NumberOf(raw)`. So the model tells apart ids that coerce
  to the same number, for example `"7"` and `7`. Nothing in the handlers compares product ids.
- CreateResponse: answers 201 and the store appends where the source answers 500 and does not
  push, when a conversion throws. `DateOf` and `NumberOf` never fail, but in JavaScript
  `new Date(x)` and `Number(x)` run ToPrimitive on an object argument, which throws when the
  object has an own `toString` key whose value is not callable, for example
  `"dataCriacao": {"toString": 1}`, or an array holding such an object.
- MapOrder: never fails on `dataCriacao`, although `new Date` throws on such an object.
- MapItems: never fails on `idItem`, although `Number` throws on such an object, for example
  an item `{"idItem": {"toString": 1}}`.
- JavaScript numbers: a body number is modelled as a real value. `JSON.parse` turns an
  out-of-range literal such as `1e400` into `Infinity`, which the model cannot hold; such a
  value is truthy and only copied through, so no stated property depends on it.
- JavaScript strings: a Dafny string holds Unicode scalar values, so a lone surrogate such as
  the one `"\ud800"` parses to cannot be represented. A stored id of that kind could never
  equal a decoded path id anyway.
- Property reads see only an object's own keys. For the keys the handlers read this is exact;
  inherited properties such as `toString` matter only through the conversions described
  above, where an own key of that name shadows them.
- Serialisation of the JSON responses, including the message texts: the model keeps only the
  status and, on 201 and 200, the record.
- Concurrency: the handlers run to completion one at a time. Nothing in them suspends between
  validation and the push.
