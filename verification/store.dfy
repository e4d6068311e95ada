/** The two database tables seen as values, and the store operations of
    the models: product creation, cart creation, lookup by customer id and
    the product-name filters. */
module Store {
  import opened Wrappers
  import opened Json
  import P = Products
  import S = Shopcarts

  /** The shopcart table holds only the `customer_id` primary key, one
      entry per cart in insertion order; the product table holds product
      rows in table order. A cart's products are not stored with it: they
      are the product rows whose `shopcart_id` equals its `customer_id`. */
  datatype Store = Store(carts: seq<Json>, products: seq<P.Product>)

  /** Every product row belongs to an existing cart. */
  predicate ReferentialIntegrity(s: Store) {
    forall p | p in s.products :: p.shopcartId in s.carts
  }

  /** No two product rows share an id. */
  predicate UniqueIds(rows: seq<P.Product>) {
    forall i, j | 0 <= i < j < |rows| :: rows[i].id != rows[j].id
  }

  /** The ids of the product rows, in table order. */
  function Ids(rows: seq<P.Product>): (ids: seq<Json>)
    ensures |ids| == |rows|
    ensures forall i | 0 <= i < |rows| :: ids[i] == rows[i].id
  {
    seq(|rows|, i requires 0 <= i < |rows| => rows[i].id)
  }

  /** `query.filter(column == value)`: the rows whose column equals the
      value, each as often as it occurs and in table order. */
  function Query(rows: seq<P.Product>, col: P.Column, v: Json): (r: seq<P.Product>)
    ensures |r| <= |rows|
    ensures forall p :: p in r <==> p in rows && P.Get(p, col) == v
    decreases |rows|
  {
    if |rows| == 0 then
      []
    else
      assert rows == [rows[0]] + rows[1..];
      if P.Get(rows[0], col) == v then [rows[0]] + Query(rows[1..], col, v)
      else Query(rows[1..], col, v)
  }

  /** The filter keeps each matching row as often as it occurs, and drops
      every other row. */
  lemma {:induction false} QueryCount(rows: seq<P.Product>, col: P.Column, v: Json)
    ensures forall p :: multiset(Query(rows, col, v))[p] == if P.Get(p, col) == v then multiset(rows)[p] else 0
    decreases |rows|
  {
    if |rows| > 0 {
      QueryCount(rows[1..], col, v);
      assert rows == [rows[0]] + rows[1..];
    }
  }

  /** No row matches, so the filter is empty. */
  lemma {:induction false} QueryNone(rows: seq<P.Product>, col: P.Column, v: Json)
    requires forall p | p in rows :: P.Get(p, col) != v
    ensures Query(rows, col, v) == []
    decreases |rows|
  {
    if |rows| > 0 {
      assert rows[0] in rows;
      assert forall p | p in rows[1..] :: p in rows;
      QueryNone(rows[1..], col, v);
    }
  }

  /** Filtering distributes over concatenation, so the result keeps the
      rows' relative order. */
  lemma {:induction false} QueryAppend(a: seq<P.Product>, b: seq<P.Product>, col: P.Column, v: Json)
    ensures Query(a + b, col, v) == Query(a, col, v) + Query(b, col, v)
    decreases |a|
  {
    if |a| > 0 {
      assert (a + b)[1..] == a[1..] + b;
      QueryAppend(a[1..], b, col, v);
    } else {
      assert a + b == b;
    }
  }

  /** `Product.filter_by_product_name`: the products named exactly `name`. */
  function ProductsNamed(s: Store, name: string): (r: seq<P.Product>)
    ensures forall p :: p in r <==> p in s.products && p.name == JStr(name)
  {
    Query(s.products, P.Name, JStr(name))
  }

  /** `Shopcart.find_by_customer_id`: the cart with that id, with its
      products, or `None` when there is no such cart. */
  function FindCart(s: Store, customerId: Json): (r: Option<S.Shopcart>)
    ensures r.Some? <==> customerId in s.carts
    ensures r.Some? ==> r.value.customerId == customerId
    ensures r.Some? ==> forall p :: p in r.value.products <==> p in s.products && p.shopcartId == customerId
  {
    if customerId in s.carts then Some(S.Shopcart(customerId, Query(s.products, P.ShopcartId, customerId)))
    else None
  }

  /** Looks up the owning cart of each product, one entry per product. */
  function ResolveOwners(s: Store, ps: seq<P.Product>): (r: seq<Option<S.Shopcart>>)
    ensures |r| == |ps|
    ensures forall i | 0 <= i < |ps| :: r[i] == FindCart(s, ps[i].shopcartId)
    decreases |ps|
  {
    if |ps| == 0 then [] else [FindCart(s, ps[0].shopcartId)] + ResolveOwners(s, ps[1..])
  }

  /** `Shopcart.filter_by_product_name`: for every product named exactly
      `name`, in query order, the cart that owns it. Nothing is
      deduplicated. */
  function CartsWithProductName(s: Store, name: string): (r: seq<Option<S.Shopcart>>)
    ensures |r| == |ProductsNamed(s, name)|
    ensures forall i | 0 <= i < |r| :: r[i] == FindCart(s, ProductsNamed(s, name)[i].shopcartId)
  {
    ResolveOwners(s, ProductsNamed(s, name))
  }

  /** How many entries of a filter result are the cart of `customerId`. */
  function Occurrences(r: seq<Option<S.Shopcart>>, customerId: Json): nat
    decreases |r|
  {
    if |r| == 0 then 0
    else (if r[0].Some? && r[0].value.customerId == customerId then 1 else 0) + Occurrences(r[1..], customerId)
  }

  lemma {:induction false} ResolveOwnersCount(s: Store, ps: seq<P.Product>, customerId: Json)
    ensures Occurrences(ResolveOwners(s, ps), customerId) ==
              if customerId in s.carts then |Query(ps, P.ShopcartId, customerId)| else 0
    decreases |ps|
  {
    if |ps| > 0 {
      ResolveOwnersCount(s, ps[1..], customerId);
      assert ResolveOwners(s, ps)[1..] == ResolveOwners(s, ps[1..]);
    }
  }

  /** A cart appears in the filter's result once per product it owns with
      that name: a cart holding k such products appears k times, and an id
      with no cart never appears. */
  lemma FilterMultiplicity(s: Store, name: string, customerId: Json)
    ensures Occurrences(CartsWithProductName(s, name), customerId) ==
              if customerId in s.carts then |Query(ProductsNamed(s, name), P.ShopcartId, customerId)| else 0
  {
    ResolveOwnersCount(s, ProductsNamed(s, name), customerId);
  }

  /** An existing cart is in the result exactly when it owns a product
      with that name. */
  lemma FilterExact(s: Store, name: string, cid: Json)
    requires cid in s.carts
    ensures FindCart(s, cid) in CartsWithProductName(s, name) <==>
              exists p :: p in s.products && p.name == JStr(name) && p.shopcartId == cid
  {
  }

  /** When every product belongs to an existing cart, every entry of the
      result is a cart, and it holds a product with that name. */
  lemma FilterFindsOwners(s: Store, name: string)
    requires ReferentialIntegrity(s)
    ensures forall e | e in CartsWithProductName(s, name) ::
              e.Some? && exists p :: p in e.value.products && p.name == JStr(name)
  {
  }

  /** The key an autoincrement primary key generates: one more than the
      largest integer key in use, so no key in use. */
  function NextKey(keys: seq<Json>): (k: int)
    ensures forall i | 0 <= i < |keys| :: keys[i].JInt? ==> keys[i].i < k
    ensures k >= 1
    decreases |keys|
  {
    if |keys| == 0 then 1
    else
      var rest := NextKey(keys[..|keys| - 1]);
      var last := keys[|keys| - 1];
      if last.JInt? && last.i >= rest then last.i + 1 else rest
  }

  /** The table an error comes from. */
  datatype Table = CartTable | ProductTable

  /** What the database raises when a commit is refused: a primary key
      already in use, or `None` in a column declared `nullable=False`. */
  datatype StoreError =
    | Conflict(table: Table, key: Json)
    | NotNull(column: P.Column)

  /** The product columns declared `nullable=False`, in table order. */
  const NotNullColumns: seq<P.Column> := [P.Name, P.Quantity, P.Price, P.ShopcartId]

  /** Whether the not-null constraints accept the product: no column of
      `NotNullColumns` holds `None`. */
  predicate NullFree(p: P.Product) {
    p.name != JNull && p.quantity != JNull && p.price != JNull && p.shopcartId != JNull
  }

  /** The first column, in table order, that holds `None` although it is
      declared `nullable=False`. */
  function FirstNullColumn(p: P.Product): (r: Option<P.Column>)
    ensures r.None? <==> NullFree(p)
    ensures r.Some? ==> r.value in NotNullColumns && P.Get(p, r.value) == JNull
  {
    if p.name == JNull then Some(P.Name)
    else if p.quantity == JNull then Some(P.Quantity)
    else if p.price == JNull then Some(P.Price)
    else if p.shopcartId == JNull then Some(P.ShopcartId)
    else None
  }

  /** A product together with the store it was inserted into. */
  datatype Created = Created(store: Store, product: P.Product)

  /** Adding a new product object to the session and committing: `None`
      in a not-null column is refused; an id of `None` is replaced by a
      generated key; an id already in use is refused. */
  function Insert(s: Store, p: P.Product): (r: Result<Created, StoreError>)
    ensures r.Success? <==> NullFree(p) && (p.id.JNull? || p.id !in Ids(s.products))
    ensures r.Failure? && r.error.NotNull? ==> r.error.column in NotNullColumns && P.Get(p, r.error.column) == JNull
    ensures r.Failure? && r.error.Conflict? ==> r.error == Conflict(ProductTable, p.id)
    ensures r.Success? ==> r.value.product == p.(id := r.value.product.id)
    ensures r.Success? ==> r.value.product.id !in Ids(s.products)
    ensures r.Success? ==> r.value.product.id == if p.id.JNull? then JInt(NextKey(Ids(s.products))) else p.id
    ensures r.Success? ==> r.value.store == Store(s.carts, s.products + [r.value.product])
  {
    match FirstNullColumn(p)
    case Some(c) => Failure(NotNull(c))
    case None =>
      var key := if p.id.JNull? then JInt(NextKey(Ids(s.products))) else p.id;
      if key in Ids(s.products) then Failure(Conflict(ProductTable, key))
      else
        var stored := p.(id := key);
        Success(Created(Store(s.carts, s.products + [stored]), stored))
  }

  /** `Product.create`: the client's id is discarded, so the store assigns
      a key no row uses yet and appends the row; the commit is refused
      when a not-null column holds `None`. */
  function CreateProduct(s: Store, p: P.Product): (r: Result<Created, StoreError>)
    ensures r.Success? <==> NullFree(p)
    ensures r.Failure? ==> r.error.NotNull? && r.error.column in NotNullColumns && P.Get(p, r.error.column) == JNull
    ensures r.Success? ==> r.value.product == p.(id := r.value.product.id)
    ensures r.Success? ==> r.value.product.id.JInt? && forall q | q in s.products :: q.id != r.value.product.id
    ensures r.Success? ==> r.value.store == Store(s.carts, s.products + [r.value.product])
  {
    Insert(s, p.(id := JNull))
  }

  /** The id a client supplies makes no difference to what is created. */
  lemma CreateIgnoresClientId(s: Store, p: P.Product, clientId: Json)
    ensures CreateProduct(s, p.(id := clientId)) == CreateProduct(s, p)
  {
  }

  /** Inserting a product keeps ids unique. */
  lemma InsertKeepsIdsUnique(s: Store, p: P.Product)
    requires UniqueIds(s.products)
    requires Insert(s, p).Success?
    ensures UniqueIds(Insert(s, p).value.store.products)
  {
  }

  /** Creating a product in an existing cart keeps every product row
      attached to an existing cart. */
  lemma CreateKeepsIntegrity(s: Store, p: P.Product)
    requires ReferentialIntegrity(s)
    requires p.shopcartId in s.carts
    requires CreateProduct(s, p).Success?
    ensures ReferentialIntegrity(CreateProduct(s, p).value.store)
  {
  }

  /** After a product is created in an existing cart, finding the cart
      gives its old products followed by the new one. */
  lemma CreateThenFind(s: Store, p: P.Product)
    requires p.shopcartId in s.carts
    requires CreateProduct(s, p).Success?
    ensures FindCart(CreateProduct(s, p).value.store, p.shopcartId) ==
              Some(S.Shopcart(p.shopcartId,
                              FindCart(s, p.shopcartId).value.products + [CreateProduct(s, p).value.product]))
  {
    var r := CreateProduct(s, p).value;
    QueryAppend(s.products, [r.product], P.ShopcartId, p.shopcartId);
    assert Query([r.product], P.ShopcartId, p.shopcartId) == [r.product];
  }

  /** The ids of concatenated tables are the concatenated ids. */
  lemma IdsAppend(a: seq<P.Product>, b: seq<P.Product>)
    ensures Ids(a + b) == Ids(a) + Ids(b)
  {
  }

  /** A row with a fresh id followed by rows with ids fresh for the table
      extended by it: all of them have ids fresh for the table and
      distinct from each other. */
  lemma IdsStep(rows: seq<P.Product>, q: P.Product, more: seq<P.Product>)
    requires q.id != JNull && q.id !in Ids(rows)
    requires forall i | 0 <= i < |more| :: more[i].id != JNull && more[i].id !in Ids(rows + [q])
    requires UniqueIds(more)
    ensures forall i | 0 <= i < |[q] + more| :: ([q] + more)[i].id != JNull && ([q] + more)[i].id !in Ids(rows)
    ensures UniqueIds([q] + more)
    ensures UniqueIds(rows) ==> UniqueIds(rows + ([q] + more))
  {
    IdsAppend(rows, [q]);
  }

  /** Products together with the store they were inserted into. */
  datatype Inserted = Inserted(store: Store, rows: seq<P.Product>)

  /** Inserting product objects one after another in one commit. The
      first refused row refuses the whole commit, so nothing is kept. */
  function InsertAll(s: Store, ps: seq<P.Product>): (r: Result<Inserted, StoreError>)
    ensures r.Success? ==> |r.value.rows| == |ps|
    ensures r.Success? ==> forall i | 0 <= i < |ps| :: r.value.rows[i] == ps[i].(id := r.value.rows[i].id)
    ensures r.Success? ==> r.value.store == Store(s.carts, s.products + r.value.rows)
    ensures r.Success? ==> forall i | 0 <= i < |ps| :: !ps[i].id.JNull? ==> r.value.rows[i].id == ps[i].id
    ensures r.Success? ==> forall i | 0 <= i < |ps| :: r.value.rows[i].id != JNull && r.value.rows[i].id !in Ids(s.products)
    ensures r.Success? ==> UniqueIds(r.value.rows)
    ensures r.Success? && UniqueIds(s.products) ==> UniqueIds(r.value.store.products)
    ensures r.Failure? ==> r.error.NotNull? || r.error.table == ProductTable
    ensures (forall i | 0 <= i < |ps| :: NullFree(ps[i]) && ps[i].id.JNull?) ==> r.Success?
    decreases |ps|
  {
    if |ps| == 0 then
      Success(Inserted(s, []))
    else
      match Insert(s, ps[0])
      case Failure(e) => Failure(e)
      case Success(first) =>
        match InsertAll(first.store, ps[1..])
        case Failure(e) => Failure(e)
        case Success(rest) =>
          assert s.products + ([first.product] + rest.rows) == s.products + [first.product] + rest.rows;
          IdsStep(s.products, first.product, rest.rows);
          Success(Inserted(rest.store, [first.product] + rest.rows))
  }

  /** The cart's products as the relationship flushes them: each one's
      `shopcart_id` is set to the cart's key. */
  function Attach(ps: seq<P.Product>, key: Json): (r: seq<P.Product>)
    ensures |r| == |ps|
    ensures forall i | 0 <= i < |ps| :: r[i] == ps[i].(shopcartId := key)
  {
    seq(|ps|, i requires 0 <= i < |ps| => ps[i].(shopcartId := key))
  }

  /** A cart together with the store it was inserted into. */
  datatype CreatedCart = CreatedCart(store: Store, cart: S.Shopcart)

  /** `Shopcart.create`: sets the cart object's customer id and adds the
      object, and with it the products it holds, in one commit. A
      `customer_id` of `None` is replaced by a generated key; a key that
      already has a cart is refused, and so is any refused product. */
  function CreateCart(s: Store, c: S.Shopcart, customerId: Json): (r: Result<CreatedCart, StoreError>)
    ensures !customerId.JNull? && customerId in s.carts ==> r == Failure(Conflict(CartTable, customerId))
    ensures (customerId.JNull? || customerId !in s.carts) ==> !(r.Failure? && r.error.Conflict? && r.error.table == CartTable)
    ensures r.Success? ==> r.value.cart.customerId == if customerId.JNull? then JInt(NextKey(s.carts)) else customerId
    ensures r.Success? ==> r.value.cart.customerId !in s.carts && r.value.cart.customerId != JNull
    ensures r.Success? ==> r.value.store.carts == s.carts + [r.value.cart.customerId]
    ensures r.Success? ==> r.value.store.products == s.products + r.value.cart.products
    ensures r.Success? ==> |r.value.cart.products| == |c.products|
    ensures r.Success? ==> forall i | 0 <= i < |c.products| ::
              r.value.cart.products[i] ==
                c.products[i].(shopcartId := r.value.cart.customerId, id := r.value.cart.products[i].id)
    ensures r.Success? ==> forall i | 0 <= i < |c.products| ::
              !c.products[i].id.JNull? ==> r.value.cart.products[i].id == c.products[i].id
    ensures r.Success? ==> forall i | 0 <= i < |c.products| ::
              r.value.cart.products[i].id != JNull && r.value.cart.products[i].id !in Ids(s.products)
    ensures r.Success? ==> UniqueIds(r.value.cart.products)
    ensures c.products == [] && (customerId.JNull? || customerId !in s.carts) ==> r.Success?
  {
    var key := if customerId.JNull? then JInt(NextKey(s.carts)) else customerId;
    if key in s.carts then Failure(Conflict(CartTable, key))
    else
      match InsertAll(Store(s.carts + [key], s.products), Attach(c.products, key))
      case Failure(e) => Failure(e)
      case Success(ins) => Success(CreatedCart(ins.store, S.Shopcart(key, ins.rows)))
  }

  /** A cart created without a customer id gets a generated key, so a
      second such creation succeeds too, under a different key. */
  lemma CreateWithoutKeyTwice(s: Store)
    ensures CreateCart(s, S.Fresh, JNull).Success?
    ensures var first := CreateCart(s, S.Fresh, JNull).value;
            && CreateCart(first.store, S.Fresh, JNull).Success?
            && CreateCart(first.store, S.Fresh, JNull).value.cart.customerId != first.cart.customerId
  {  }

  /** Every row matches, so the filter returns the rows unchanged. */
  lemma {:induction false} QueryAll(rows: seq<P.Product>, col: P.Column, v: Json)
    requires forall i | 0 <= i < |rows| :: P.Get(rows[i], col) == v
    ensures Query(rows, col, v) == rows
    decreases |rows|
  {
    if |rows| > 0 {
      QueryAll(rows[1..], col, v);
      assert rows == [rows[0]] + rows[1..];
    }
  }

  /** When every product belongs to an existing cart, a newly created cart
      is found with its key and exactly the products it was created with,
      in order. */
  lemma CreateCartThenFind(s: Store, c: S.Shopcart, customerId: Json)
    requires ReferentialIntegrity(s)
    requires CreateCart(s, c, customerId).Success?
    ensures FindCart(CreateCart(s, c, customerId).value.store, CreateCart(s, c, customerId).value.cart.customerId) ==
              Some(CreateCart(s, c, customerId).value.cart)
  {
    var r := CreateCart(s, c, customerId).value;
    var key := r.cart.customerId;
    var rows := r.cart.products;
    assert key !in s.carts;
    QueryNone(s.products, P.ShopcartId, key);
    QueryAll(rows, P.ShopcartId, key);
    QueryAppend(s.products, rows, P.ShopcartId, key);
    assert r.store.products == s.products + rows;
    assert key in r.store.carts;
    assert Query(r.store.products, P.ShopcartId, key) == rows;
  }

  /** Creating a cart keeps product ids unique: the cascaded rows keep
      their explicit ids or get fresh keys, and none clashes with a stored
      row or with another cascaded row. */
  lemma CreateCartKeepsIdsUnique(s: Store, c: S.Shopcart, customerId: Json)
    requires UniqueIds(s.products)
    requires CreateCart(s, c, customerId).Success?
    ensures UniqueIds(CreateCart(s, c, customerId).value.store.products)
  {  }

  /** Creating a cart keeps every product row attached to an existing
      cart. */
  lemma CreateCartKeepsIntegrity(s: Store, c: S.Shopcart, customerId: Json)
    requires ReferentialIntegrity(s)
    requires CreateCart(s, c, customerId).Success?
    ensures ReferentialIntegrity(CreateCart(s, c, customerId).value.store)
  {  }
}
