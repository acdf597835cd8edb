/**
 Properties of the order service that relate several definitions or several
 requests: the mapping is a function of the payload, validation is a
 truthiness test, the store is append-only, and a lookup keeps answering with
 the earliest matching record.
 */
module OrderProperties {
  import opened Wrappers
  import opened JsValues
  import opened OrderServer

  /** The normalization relation determines the record: MapOrder computes
      exactly the record that MapsTo describes, and fails exactly when none
      exists. */
  lemma {:induction false} MapOrderIsTheMapping(p: Payload, o: Order)
    ensures MapOrder(p) == Some(o) <==> MapsTo(p, o)
  {
    if MapsTo(p, o) {
      assert Mappable(p.items) by {
        forall i | 0 <= i < |p.items.elems|
          ensures !Nullish(p.items.elems[i])
        {
          assert ItemMapsTo(p.items.elems[i], o.items[i]);
        }
      }
      var m := MapOrder(p).value;
      assert m.items == o.items by {
        forall i | 0 <= i < |o.items|
          ensures m.items[i] == o.items[i]
        {
          assert ItemMapsTo(p.items.elems[i], m.items[i]);
          assert ItemMapsTo(p.items.elems[i], o.items[i]);
        }
      }
    }
  }

  /** Key `k` of an object body is missing or holds a falsy value. */
  predicate FieldFalsy(body: Value, k: string)
    requires body.Object?
  {
    k !in body.props || !Truthy(body.props[k])
  }

  /** For an object body, the create handler answers 400 exactly when one of
      the four required keys is missing or holds a falsy value. */
  lemma RejectedExactlyWhenFieldFalsy(body: Value)
    requires body.Object?
    ensures CreateResponse(body) == BadRequest <==>
      FieldFalsy(body, "numeroPedido") || FieldFalsy(body, "valorTotal") ||
      FieldFalsy(body, "dataCriacao") || FieldFalsy(body, "items")
  {
  }

  /** Validation rejects falsy values that are present: a total of 0 or an
      empty order number gives 400, as does a missing `items` key. */
  lemma FalsyFieldRejected(body: Value)
    requires body.Object?
    requires "valorTotal" in body.props && body.props["valorTotal"] == Number(0.0)
    ensures CreateResponse(body) == BadRequest
  {
  }

  lemma EmptyOrderNumberRejected(body: Value)
    requires body.Object?
    requires "numeroPedido" in body.props && body.props["numeroPedido"] == Str("")
    ensures CreateResponse(body) == BadRequest
  {
  }

  lemma MissingItemsRejected(body: Value)
    requires body.Object? && "items" !in body.props
    ensures CreateResponse(body) == BadRequest
  {
  }

  /** An empty items array is truthy, so it passes validation and yields a
      record with no items. */
  lemma EmptyItemsAccepted(body: Value)
    requires body.Object?
    requires "items" in body.props && body.props["items"] == Array([])
    requires Truthy(Destructure(body).numeroPedido) && Truthy(Destructure(body).valorTotal)
    requires Truthy(Destructure(body).dataCriacao)
    ensures HasRequiredFields(Destructure(body))
    ensures CreateResponse(body).Created?
    ensures CreateResponse(body).order.items == []
  {
  }

  /** A truthy `items` that is not an array makes `items.map` throw: 500. */
  lemma NonArrayItemsFail(body: Value)
    requires !Nullish(body) && HasRequiredFields(Destructure(body))
    requires !Destructure(body).items.Array?
    ensures CreateResponse(body) == ServerError
  {
  }

  /** A null element of `items` makes the callback throw: 500. */
  lemma NullItemFails(body: Value, k: nat)
    requires !Nullish(body) && HasRequiredFields(Destructure(body))
    requires Destructure(body).items.Array?
    requires k < |Destructure(body).items.elems| && Destructure(body).items.elems[k] == Null
    ensures CreateResponse(body) == ServerError
  {
  }

  /** Appending a record never changes an existing first match; without one,
      the appended record is the match exactly when its id is `id`. */
  lemma {:induction false} FirstMatchAppend(orders: seq<Order>, o: Order, id: string)
    ensures FirstMatch(orders + [o], id) ==
      if FirstMatch(orders, id).Some? then FirstMatch(orders, id)
      else if o.orderId == Str(id) then Some(|orders|)
      else None
  {
    if orders != [] {
      assert (orders + [o])[1..] == orders[1..] + [o];
      FirstMatchAppend(orders[1..], o, id);
    }
  }

  /** There is no uniqueness check: CreateResponse does not read the store,
      so whether a body is created does not depend on the ids already stored,
      and OrderStore.Create appends every created record (its ensures). A
      record whose id is already stored is therefore appended as well, and the
      lookup keeps returning the older one. */
  lemma DuplicateIdShadowed(orders: seq<Order>, body: Value, id: string)
    requires CreateResponse(body).Created?
    requires CreateResponse(body).order.orderId == Str(id)
    requires FirstMatch(orders, id).Some?
    ensures FirstMatch(orders + [CreateResponse(body).order], id) == FirstMatch(orders, id)
  {
    FirstMatchAppend(orders, CreateResponse(body).order, id);
  }

  /** A record created from a numeric (or otherwise non-string) order number
      is never strictly equal to a path id, so it can never be fetched. */
  lemma NonStringIdNeverFound(orders: seq<Order>, body: Value, id: string)
    requires CreateResponse(body).Created?
    requires !Destructure(body).numeroPedido.Str?
    ensures FirstMatch(orders + [CreateResponse(body).order], id) == FirstMatch(orders, id)
  {
    FirstMatchAppend(orders, CreateResponse(body).order, id);
  }

  /** The store after serving the create requests `bodies` in order. */
  ghost function Replay(orders: seq<Order>, bodies: seq<Value>): seq<Order>
    decreases |bodies|
  {
    if bodies == [] then orders
    else
      var r := CreateResponse(bodies[0]);
      Replay(if r.Created? then orders + [r.order] else orders, bodies[1..])
  }

  /** Creates only append: the earlier store is a prefix of the later one,
      which grows by at most one record per request. */
  lemma {:induction false} ReplayAppendOnly(orders: seq<Order>, bodies: seq<Value>)
    ensures |orders| <= |Replay(orders, bodies)| <= |orders| + |bodies|
    ensures Replay(orders, bodies)[..|orders|] == orders
    decreases |bodies|
  {
    if bodies != [] {
      var r := CreateResponse(bodies[0]);
      var next := if r.Created? then orders + [r.order] else orders;
      ReplayAppendOnly(next, bodies[1..]);
      assert next[..|orders|] == orders;
    }
  }

  /** Once an id can be fetched, later creates never change what it fetches. */
  lemma {:induction false} ReplayKeepsFirstMatch(orders: seq<Order>, bodies: seq<Value>, id: string)
    requires FirstMatch(orders, id).Some?
    ensures FirstMatch(Replay(orders, bodies), id) == FirstMatch(orders, id)
    decreases |bodies|
  {
    if bodies != [] {
      var r := CreateResponse(bodies[0]);
      if r.Created? {
        FirstMatchAppend(orders, r.order, id);
        ReplayKeepsFirstMatch(orders + [r.order], bodies[1..], id);
      } else {
        ReplayKeepsFirstMatch(orders, bodies[1..], id);
      }
    }
  }

  /** Creating order "A1" with one item and then fetching "A1" gives back that
      order with exactly that item. */
  method CreateThenFetch() returns (created: Response, fetched: Response)
    ensures created.Created? && fetched == Ok(created.order)
    ensures fetched.order.orderId == Str("A1") && fetched.order.value == Number(100.0)
    ensures fetched.order.items == [Item(NumberOf(Number(7.0)), Number(2.0), Number(50.0))]
  {
    var item := Object(map["idItem" := Number(7.0), "quantidadeItem" := Number(2.0),
                           "valorItem" := Number(50.0)]);
    var body := Object(map["numeroPedido" := Str("A1"), "valorTotal" := Number(100.0),
                           "dataCriacao" := Str("2024-05-01T10:00:00Z"), "items" := Array([item])]);
    var store := new OrderStore();
    created := store.Create(body);
    assert created.Created?;
    assert ItemMapsTo(item, created.order.items[0]);
    fetched := store.Get("A1");
    assert store.orders[0].orderId == Str("A1");
  }
}
