/** The `Product` record (a line item of a cart) and its mapping to and
    from a JSON-like dictionary. */
module Products {
  import opened Wrappers
  import opened Json
  import opened Validation

  /** A product object. Its attributes hold whatever values were assigned
      to them: the deserialiser copies values out of the request body
      without checking their types, so each column is a `Json` value. */
  datatype Product = Product(id: Json, shopcartId: Json, name: Json, price: Json, quantity: Json)

  /** `Product()`: a newly constructed object, every column still `None`. */
  const Fresh := Product(JNull, JNull, JNull, JNull, JNull)

  /** The five columns of the product table. */
  datatype Column = Id | ShopcartId | Name | Price | Quantity

  /** The dictionary key under which a column is serialised and read. */
  function Key(c: Column): string {
    match c
    case Id => "id"
    case ShopcartId => "shopcart_id"
    case Name => "name"
    case Price => "price"
    case Quantity => "quantity"
  }

  function Get(p: Product, c: Column): Json {
    match c
    case Id => p.id
    case ShopcartId => p.shopcartId
    case Name => p.name
    case Price => p.price
    case Quantity => p.quantity
  }

  /** The order in which the deserialiser reads the keys. */
  const ReadOrder: seq<Column> := [ShopcartId, Name, Price, Quantity, Id]

  /** The keys a serialised product carries. */
  const Keys: set<string> := {"id", "shopcart_id", "name", "price", "quantity"}

  /** `Product.serialize`: a dictionary with exactly the five keys, each
      bound to the value of its column. */
  function Serialize(p: Product): (r: Json)
    ensures r.JObj? && r.fields.Keys == Keys
    ensures forall c :: Key(c) in r.fields && r.fields[Key(c)] == Get(p, c)
  {
    JObj(map[
      "id" := p.id,
      "shopcart_id" := p.shopcartId,
      "name" := p.name,
      "price" := p.price,
      "quantity" := p.quantity
    ])
  }

  /** `Product.deserialize`: on a mapping, the columns are read in the
      order `shopcart_id`, `name`, `price`, `quantity`, `id`; any other
      input cannot be indexed by a key and fails as bad or no data. The
      values are not checked against the columns' types. */
  function Deserialize(p: Product, data: Json): (r: Deserialized<Product>)
    ensures !data.JObj? ==> r == Deserialized(p, Some(BadOrNoData(ProductEntity)))
    ensures r.Ok() <==> data.JObj? && Keys <= data.fields.Keys
    ensures r.Ok() ==> forall c :: Get(r.state, c) == data.fields[Key(c)]
    ensures r.error.Some? && data.JObj? ==> r.error.value.Missing? && r.error.value.entity == ProductEntity
  {
    match data
    case JObj(m) =>
      if "shopcart_id" !in m then Deserialized(p, Some(Missing(ProductEntity, "shopcart_id")))
      else
        var p1 := p.(shopcartId := m["shopcart_id"]);
        if "name" !in m then Deserialized(p1, Some(Missing(ProductEntity, "name")))
        else
          var p2 := p1.(name := m["name"]);
          if "price" !in m then Deserialized(p2, Some(Missing(ProductEntity, "price")))
          else
            var p3 := p2.(price := m["price"]);
            if "quantity" !in m then Deserialized(p3, Some(Missing(ProductEntity, "quantity")))
            else
              var p4 := p3.(quantity := m["quantity"]);
              if "id" !in m then Deserialized(p4, Some(Missing(ProductEntity, "id")))
              else Deserialized(p4.(id := m["id"]), None)
    case _ => Deserialized(p, Some(BadOrNoData(ProductEntity)))
  }

  /** Serialising and then deserialising into any product object, fresh
      or not, reproduces all five column values. */
  lemma RoundTrip(q: Product, p: Product)
    ensures Deserialize(q, Serialize(p)) == Deserialized(p, None)
    ensures Deserialize(q, Serialize(p)).ToResult() == Success(p)
  {
  }

  /** `Product.deserialize` on a mapping lacking some keys fails naming the
      first missing key in the read order `shopcart_id`, `name`, `price`,
      `quantity`, `id`, after assigning exactly the columns read before it. */
  lemma FirstMissingKey(p: Product, m: map<string, Json>, j: nat)
    requires j < |ReadOrder|
    requires Key(ReadOrder[j]) !in m
    requires forall i | 0 <= i < j :: Key(ReadOrder[i]) in m
    ensures Deserialize(p, JObj(m)).error == Some(Missing(ProductEntity, Key(ReadOrder[j])))
    ensures forall i | 0 <= i < |ReadOrder| :: Get(Deserialize(p, JObj(m)).state, ReadOrder[i]) ==
                                                (if i < j then m[Key(ReadOrder[i])] else Get(p, ReadOrder[i]))
  {
    assert ReadOrder[0] == ShopcartId && ReadOrder[1] == Name && ReadOrder[2] == Price;
    assert ReadOrder[3] == Quantity && ReadOrder[4] == Id;
    if j > 0 { assert "shopcart_id" in m; }
    if j > 1 { assert "name" in m; }
    if j > 2 { assert "price" in m; }
    if j > 3 { assert "quantity" in m; }
  }
}
