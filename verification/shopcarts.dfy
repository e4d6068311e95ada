/** The `Shopcart` record (a customer's cart and its ordered products)
    and its mapping to and from a JSON-like dictionary. */
module Shopcarts {
  import opened Wrappers
  import opened Json
  import opened Validation
  import P = Products

  /** A cart object: the customer id it is keyed by and its products, in
      the order of the `products` relationship. */
  datatype Shopcart = Shopcart(customerId: Json, products: seq<P.Product>)

  /** `Shopcart()`: a newly constructed object with no id and no products. */
  const Fresh := Shopcart(JNull, [])

  /** `Shopcart.serialize`: the customer id and the products' own
      serialisations, one per product, in the cart's order. */
  function Serialize(c: Shopcart): (r: Json)
    ensures r.JObj? && r.fields.Keys == {"customer_id", "products"}
    ensures r.fields["customer_id"] == c.customerId
    ensures r.fields["products"].JList? && |r.fields["products"].items| == |c.products|
    ensures forall i | 0 <= i < |c.products| :: r.fields["products"].items[i] == P.Serialize(c.products[i])
  {
    JObj(map[
      "customer_id" := c.customerId,
      "products" := JList(seq(|c.products|, i requires 0 <= i < |c.products| => P.Serialize(c.products[i])))
    ])
  }

  /** The products that entries decode to, each into a fresh `Product()`. */
  function Decoded(xs: seq<Json>): (ps: seq<P.Product>)
    ensures |ps| == |xs|
  {
    seq(|xs|, i requires 0 <= i < |xs| => P.Deserialize(P.Fresh, xs[i]).state)
  }

  /** Whether entry `x` decodes into a fresh product without error. */
  predicate Decodes(x: Json) {
    P.Deserialize(P.Fresh, x).Ok()
  }

  lemma DecodedCons(xs: seq<Json>)
    requires |xs| > 0
    ensures Decoded(xs) == [P.Deserialize(P.Fresh, xs[0]).state] + Decoded(xs[1..])
  {
  }

  /** The loop of `Shopcart.deserialize`: each entry is decoded into a
      fresh product and appended to the cart, until an entry fails; that
      entry's error propagates and nothing more is appended. */
  function LoadProducts(c: Shopcart, xs: seq<Json>): (r: Deserialized<Shopcart>)
    ensures r.state.customerId == c.customerId
    ensures r.Ok() <==> forall i | 0 <= i < |xs| :: Decodes(xs[i])
    ensures r.Ok() ==> r.state.products == c.products + Decoded(xs)
    ensures c.products <= r.state.products
    decreases |xs|
  {
    if |xs| == 0 then
      Deserialized(c, None)
    else
      var d := P.Deserialize(P.Fresh, xs[0]);
      if !d.Ok() then
        Deserialized(c, d.error)
      else
        DecodedCons(xs);
        assert forall i | 0 <= i < |xs[1..]| :: xs[1..][i] == xs[i + 1];
        LoadProducts(c.(products := c.products + [d.state]), xs[1..])
  }

  /** Iterating a Python string yields its one-character strings. */
  function Chars(s: string): (xs: seq<Json>)
    ensures |xs| == |s|
    ensures forall i | 0 <= i < |s| :: xs[i] == JStr([s[i]])
  {
    seq(|s|, i requires 0 <= i < |s| => JStr([s[i]]))
  }

  /** `data.get("products")`: the bound value, or `None` when absent. */
  function ProductEntries(m: map<string, Json>): Json {
    if "products" in m then m["products"] else JNull
  }

  /** Values the `for` loop cannot iterate: `None` and scalars. */
  predicate NotIterable(j: Json) {
    j.JNull? || j.JBool? || j.JInt? || j.JNum?
  }

  /** `Shopcart.deserialize`. A non-mapping cannot be indexed (bad or no
      data); a missing `customer_id` is a missing-key error; otherwise the
      id is assigned and the `products` entries are decoded and APPENDED
      to the cart's existing products. An absent or non-iterable
      `products` is bad or no data. Iterating a string or a mapping yields
      strings (characters, keys), which no product decodes from, so such a
      `products` value succeeds only when empty. */
  function Deserialize(c: Shopcart, data: Json): (r: Deserialized<Shopcart>)
    ensures !data.JObj? ==> r == Deserialized(c, Some(BadOrNoData(ShopcartEntity)))
    ensures data.JObj? && "customer_id" !in data.fields ==>
              r == Deserialized(c, Some(Missing(ShopcartEntity, "customer_id")))
    ensures data.JObj? && "customer_id" in data.fields ==> r.state.customerId == data.fields["customer_id"]
    ensures data.JObj? && "customer_id" in data.fields && NotIterable(ProductEntries(data.fields)) ==>
              r.error == Some(BadOrNoData(ShopcartEntity)) && r.state.products == c.products
    ensures c.products <= r.state.products
  {
    match data
    case JObj(m) =>
      if "customer_id" !in m then
        Deserialized(c, Some(Missing(ShopcartEntity, "customer_id")))
      else
        var c1 := c.(customerId := m["customer_id"]);
        (match ProductEntries(m)
         case JList(xs) => LoadProducts(c1, xs)
         case JStr(s) => LoadProducts(c1, Chars(s))
         case JObj(keys) =>
           if |keys| == 0 then Deserialized(c1, None)
           else Deserialized(c1, Some(BadOrNoData(ProductEntity)))
         case _ => Deserialized(c1, Some(BadOrNoData(ShopcartEntity))))
    case _ => Deserialized(c, Some(BadOrNoData(ShopcartEntity)))
  }

  /** A string entry never decodes: it cannot be indexed by a key. */
  lemma StringEntriesFail(c: Shopcart, ks: seq<string>)
    ensures LoadProducts(c, seq(|ks|, i requires 0 <= i < |ks| => JStr(ks[i]))) ==
              if |ks| == 0 then Deserialized(c, None) else Deserialized(c, Some(BadOrNoData(ProductEntity)))
  {
  }

  /** The mapping case of `Deserialize` is what iterating the mapping's
      keys, in whatever order, through the product loop gives. */
  lemma MappingEntriesIterateKeys(c: Shopcart, m: map<string, Json>, keys: map<string, Json>, ks: seq<string>)
    requires "customer_id" in m && ProductEntries(m) == JObj(keys)
    requires (set i | 0 <= i < |ks| :: ks[i]) == keys.Keys
    ensures Deserialize(c, JObj(m)) ==
              LoadProducts(c.(customerId := m["customer_id"]), seq(|ks|, i requires 0 <= i < |ks| => JStr(ks[i])))
  {
    StringEntriesFail(c.(customerId := m["customer_id"]), ks);
    if |ks| > 0 {
      assert ks[0] in keys.Keys;
    }
  }

  /** Deserialising a cart's serialisation restores its customer id and
      appends its products, in order, to those already in the object. */
  lemma {:induction false} RoundTrip(c0: Shopcart, c: Shopcart)
    ensures Deserialize(c0, Serialize(c)) == Deserialized(Shopcart(c.customerId, c0.products + c.products), None)
  {
    var xs := Serialize(c).fields["products"].items;
    forall i | 0 <= i < |xs| ensures P.Deserialize(P.Fresh, xs[i]) == Deserialized(c.products[i], None) {
      P.RoundTrip(P.Fresh, c.products[i]);
    }
    assert Decoded(xs) == c.products;
  }

  /** Deserialising into a fresh `Shopcart()` gives back the cart itself. */
  lemma FreshRoundTrip(c: Shopcart)
    ensures Deserialize(Fresh, Serialize(c)).ToResult() == Success(c)
  {
    RoundTrip(Fresh, c);
    assert [] + c.products == c.products;
  }

  /** With a list of entries, deserialisation succeeds exactly when every
      entry decodes, and then the cart's products are the old products
      followed by the decoded entries in input order. */
  lemma AppendsDecodedEntries(c: Shopcart, m: map<string, Json>, xs: seq<Json>)
    requires "customer_id" in m && ProductEntries(m) == JList(xs)
    ensures Deserialize(c, JObj(m)).Ok() <==> forall i | 0 <= i < |xs| :: Decodes(xs[i])
    ensures Deserialize(c, JObj(m)).Ok() ==>
              Deserialize(c, JObj(m)).state == Shopcart(m["customer_id"], c.products + Decoded(xs))
  {
  }

  /** The loop stops at the first entry that does not decode: its error is
      the one raised, and only the entries before it have been appended. */
  lemma {:induction false} LoadProductsStopsAt(c: Shopcart, xs: seq<Json>, j: nat)
    requires j < |xs| && !Decodes(xs[j])
    requires forall i | 0 <= i < j :: Decodes(xs[i])
    ensures LoadProducts(c, xs).error == P.Deserialize(P.Fresh, xs[j]).error
    ensures LoadProducts(c, xs).state == c.(products := c.products + Decoded(xs[..j]))
    decreases j
  {
    if j > 0 {
      var c' := c.(products := c.products + [P.Deserialize(P.Fresh, xs[0]).state]);
      assert forall i | 0 <= i < j - 1 :: xs[1..][i] == xs[i + 1];
      LoadProductsStopsAt(c', xs[1..], j - 1);
      DecodedCons(xs[..j]);
      assert xs[..j][1..] == xs[1..][..j - 1];
    }
  }

  /** An entry that fails to decode makes the whole cart fail with that
      entry's error, after the entries before it were appended. */
  lemma EntryErrorPropagates(c: Shopcart, m: map<string, Json>, xs: seq<Json>, j: nat)
    requires "customer_id" in m && ProductEntries(m) == JList(xs)
    requires j < |xs| && !Decodes(xs[j])
    requires forall i | 0 <= i < j :: Decodes(xs[i])
    ensures Deserialize(c, JObj(m)).error == P.Deserialize(P.Fresh, xs[j]).error
    ensures Deserialize(c, JObj(m)).state == Shopcart(m["customer_id"], c.products + Decoded(xs[..j]))
  {
    LoadProductsStopsAt(c.(customerId := m["customer_id"]), xs, j);
  }
}
