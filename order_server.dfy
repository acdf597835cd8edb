/**
 The in-memory order service of server.js: `POST /orders` validates a
 Portuguese-keyed payload, maps it to a normalized order record and appends
 the record to the module-level `orders` array; `GET /order/:id` returns the
 first stored record whose `orderId` is strictly equal to the path id.
 */
module OrderServer {
  import opened Wrappers
  import opened JsValues

  /** `Number(raw)`: JavaScript numeric coercion is left uninterpreted; the
      product id records the value it was applied to. */
  datatype ProductId = NumberOf(raw: Value)

  /** `new Date(raw)`: date parsing is left uninterpreted; the creation date
      records the value it was applied to. */
  datatype Date = DateOf(raw: Value)

  /** A normalized line item. Quantity and price are copied through as given. */
  datatype Item = Item(productId: ProductId, quantity: Value, price: Value)

  /** A normalized order record. The id and the total are copied through as
      given, so an id may be a number as well as a string. */
  datatype Order = Order(orderId: Value, value: Value, creationDate: Date, items: seq<Item>)

  /** The four fields the create handler reads from the request body. */
  datatype Payload = Payload(numeroPedido: Value, valorTotal: Value, dataCriacao: Value, items: Value)

  /** The outcomes of the two routes: 400, 201, 500 for create, 200, 404 for get. */
  datatype Response =
    | BadRequest
    | Created(order: Order)
    | ServerError
    | Ok(order: Order)
    | NotFound

  /** `const { numeroPedido, valorTotal, dataCriacao, items } = req.body`
      (destructuring a nullish body throws, so the caller checks that first). */
  function Destructure(body: Value): (p: Payload)
    requires !Nullish(body)
    ensures !body.Object? ==> !HasRequiredFields(p)
    ensures body.Object? && "numeroPedido" in body.props ==> p.numeroPedido == body.props["numeroPedido"]
    ensures body.Object? && "valorTotal" in body.props ==> p.valorTotal == body.props["valorTotal"]
    ensures body.Object? && "dataCriacao" in body.props ==> p.dataCriacao == body.props["dataCriacao"]
    ensures body.Object? && "items" in body.props ==> p.items == body.props["items"]
    ensures !(body.Object? && "numeroPedido" in body.props) ==> p.numeroPedido == Undefined
    ensures !(body.Object? && "valorTotal" in body.props) ==> p.valorTotal == Undefined
    ensures !(body.Object? && "dataCriacao" in body.props) ==> p.dataCriacao == Undefined
    ensures !(body.Object? && "items" in body.props) ==> p.items == Undefined
  {
    Payload(Member(body, "numeroPedido"), Member(body, "valorTotal"),
            Member(body, "dataCriacao"), Member(body, "items"))
  }

  /** The validation guard: every required field is truthy. This is a
      truthiness test, not a presence test. */
  predicate HasRequiredFields(p: Payload)
    ensures HasRequiredFields(p) ==>
      p.numeroPedido != Undefined && p.valorTotal != Undefined &&
      p.dataCriacao != Undefined && p.items != Undefined
    ensures HasRequiredFields(p) ==> Truthy(p.items)
    ensures Truthy(p.items) ==>
      (HasRequiredFields(p) <==> Truthy(p.numeroPedido) && Truthy(p.valorTotal) && Truthy(p.dataCriacao))
    ensures p.items.Array? ==>
      (HasRequiredFields(p) <==> Truthy(p.numeroPedido) && Truthy(p.valorTotal) && Truthy(p.dataCriacao))
  {
    Truthy(p.numeroPedido) && Truthy(p.valorTotal) && Truthy(p.dataCriacao) && Truthy(p.items)
  }

  /** The payload's items can be mapped without throwing: `items` is an array
      (anything else has no callable `map`) and no element is null or
      undefined (reading `idItem` of one throws). */
  predicate Mappable(items: Value) {
    items.Array? && forall i :: 0 <= i < |items.elems| ==> !Nullish(items.elems[i])
  }

  /** Item `it` is the normalization of the raw item `v`. */
  predicate ItemMapsTo(v: Value, it: Item) {
    !Nullish(v) &&
    it.productId == NumberOf(Member(v, "idItem")) &&
    it.quantity == Member(v, "quantidadeItem") &&
    it.price == Member(v, "valorItem")
  }

  /** Order `o` is the normalization of payload `p`: the header fields are
      renamed, and the items correspond one to one and in order. */
  predicate MapsTo(p: Payload, o: Order) {
    o.orderId == p.numeroPedido &&
    o.value == p.valorTotal &&
    o.creationDate == DateOf(p.dataCriacao) &&
    p.items.Array? &&
    |o.items| == |p.items.elems| &&
    forall i :: 0 <= i < |o.items| ==> ItemMapsTo(p.items.elems[i], o.items[i])
  }

  /** `items.map(item => ({ productId, quantity, price }))`; None when the
      callback throws on a null or undefined element. */
  function MapItems(items: seq<Value>): (r: Option<seq<Item>>)
    ensures r.None? <==> exists i :: 0 <= i < |items| && Nullish(items[i])
    ensures r.Some? ==> |r.value| == |items|
    ensures r.Some? ==> forall i :: 0 <= i < |items| ==> ItemMapsTo(items[i], r.value[i])
  {
    if items == [] then Some([])
    else if Nullish(items[0]) then None
    else
      match MapItems(items[1..])
      case None => None
      case Some(rest) =>
        Some([Item(NumberOf(Member(items[0], "idItem")),
                   Member(items[0], "quantidadeItem"),
                   Member(items[0], "valorItem"))] + rest)
  }

  /** The `mappedOrder` object literal; None when evaluating it throws. */
  function MapOrder(p: Payload): (r: Option<Order>)
    ensures r.None? <==> !Mappable(p.items)
    ensures r.Some? ==> MapsTo(p, r.value)
  {
    if !p.items.Array? then None
    else
      match MapItems(p.items.elems)
      case None => None
      case Some(items) => Some(Order(p.numeroPedido, p.valorTotal, DateOf(p.dataCriacao), items))
  }

  /** The response of the `POST /orders` handler for a request body. Every
      exception inside the handler is caught and answered with 500. */
  function CreateResponse(body: Value): (r: Response)
    ensures r.BadRequest? || r.Created? || r.ServerError?
    ensures r.BadRequest? <==> !Nullish(body) && !HasRequiredFields(Destructure(body))
    ensures r.ServerError? <==>
      Nullish(body) || (HasRequiredFields(Destructure(body)) && !Mappable(Destructure(body).items))
    ensures r.Created? ==> MapsTo(Destructure(body), r.order)
  {
    if Nullish(body) then ServerError
    else
      var p := Destructure(body);
      if !HasRequiredFields(p) then BadRequest
      else
        match MapOrder(p)
        case None => ServerError
        case Some(o) => Created(o)
  }

  /** `orders.find(order => order.orderId === id)`, as the index of the match.
      Strict equality with a string holds only of an equal string. */
  function FirstMatch(orders: seq<Order>, id: string): (r: Option<nat>)
    ensures r.Some? ==> r.value < |orders| && orders[r.value].orderId == Str(id)
    ensures r.Some? ==> forall j :: 0 <= j < r.value ==> orders[j].orderId != Str(id)
    ensures r.None? <==> forall j :: 0 <= j < |orders| ==> orders[j].orderId != Str(id)
  {
    if orders == [] then None
    else if orders[0].orderId == Str(id) then Some(0)
    else
      match FirstMatch(orders[1..], id)
      case None => None
      case Some(k) => Some(k + 1)
  }

  /** The module-level `orders` array and the two route handlers over it. */
  class OrderStore {
    var orders: seq<Order>

    /** `const orders = []` */
    constructor ()
      ensures orders == []
    {
      orders := [];
    }

    /** `POST /orders`: validate, map, push, answer with the pushed record.
        The store changes only on 201, and then by one record at the end. */
    method Create(body: Value) returns (r: Response)
      modifies this
      ensures r == CreateResponse(body)
      ensures r.Created? ==> orders == old(orders) + [r.order]
      ensures !r.Created? ==> orders == old(orders)
    {
      if Nullish(body) {
        // destructuring throws a TypeError
        return ServerError;
      }
      var p := Destructure(body);
      if !HasRequiredFields(p) {
        return BadRequest;
      }
      var mapped := MapOrder(p);
      if mapped.None? {
        // `items.map` is not a function, or an item is null
        return ServerError;
      }
      orders := orders + [mapped.value];
      return Created(mapped.value);
    }

    /** `GET /order/:id`: 200 with the first record whose id is the string
        `id`, 404 when there is none. Reads the store and never changes it. */
    function Get(id: string): (r: Response)
      reads this
      ensures r.Ok? || r.NotFound?
      ensures r.NotFound? <==> forall i :: 0 <= i < |orders| ==> orders[i].orderId != Str(id)
      ensures r.Ok? ==>
        exists i :: 0 <= i < |orders| && orders[i] == r.order && orders[i].orderId == Str(id) &&
          forall j :: 0 <= j < i ==> orders[j].orderId != Str(id)
    {
      match FirstMatch(orders, id)
      case None => NotFound
      case Some(i) => Ok(orders[i])
    }
  }
}
