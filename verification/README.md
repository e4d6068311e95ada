# Shopcart models in Dafny

A model of the data layer of a shopping-cart REST service. Customers own a
cart (`Shopcart`) keyed by customer id, holding line items (`Product`) with
a name, a price and a quantity. The model covers the following:

- the mapping between the two records and their dictionary (JSON-like) form;
- the validation errors that deserialisation raises;
- the creation of products and carts;
- lookup by customer id;
- the filter that finds carts by product name.

Files and modules:

- `wrappers.dfy` (`Wrappers`): `Option` and `Result`.
- `json.dfy` (`Json`): the JSON-like values request bodies arrive as. A
  mapping is a `map<string, Json>`. A float is an opaque `JNum`.
- `validation.dfy` (`Validation`): `DataValidationError` as
  `ValidationError`, either `Missing(entity, key)` (a `KeyError`) or
  `BadOrNoData(entity)` (a `TypeError`). It also holds the error message and
  `Deserialized<T>`. A deserialiser updates its object in place, so
  `Deserialized<T>` pairs the object's state after the call with the raised
  error, if any. `ToResult` gives the caller's `Result` view.
- `products.dfy` (`Products`): the `Product` record and
  `Product.serialize` / `Product.deserialize`.
- `shopcarts.dfy` (`Shopcarts`): the `Shopcart` record and
  `Shopcart.serialize` / `Shopcart.deserialize`.
- `store.dfy` (`Store`): the two tables as values. The shopcart table is a
  sequence of customer ids. The product table is a sequence of rows in
  table order. A cart's products are the rows whose `shopcart_id` equals its
  `customer_id`, as the `products` relationship loads them. This module
  holds `Product.create`, `Shopcart.create`, `Shopcart.find_by_customer_id`
  and both `filter_by_product_name` queries. A commit is modelled by
  `Insert`: it refuses `None` in a column declared `nullable=False`,
  replaces a `None` key by a generated one, and refuses a key already in
  use. `Shopcart.create` adds the cart object together with the products
  it holds; flushing them writes the cart's key into their `shopcart_id`.

A product's attributes are `Json` values. `Product.deserialize` copies
values out of the mapping without looking at their types, so an object can
hold a string quantity until the database sees it.

Where the design description and the code disagree, the model follows the
code:

- Deserialisation raises no error for a value of the wrong type. Only a
  missing key (`KeyError`) or an input that cannot be indexed or iterated
  (`TypeError`) is reported.
- `Shopcart.filter_by_product_name` does not deduplicate. It returns one
  entry per matching product, and an entry is `None` when no cart has that
  product's `shopcart_id`.
- `Shopcart.deserialize` appends the decoded products to the cart's
  existing list. It does not replace them.
- A `products` value that is a string or a mapping is iterated, not
  rejected. A string gives its characters and a mapping gives its keys.
  `Products.Deserialize` rejects each of these entries as bad data. So an
  empty string or an empty mapping succeeds, and any other string or
  mapping fails with the Product bad-data error.
- The conflict on a second cart with the same customer id comes from the
  table's primary key, not from the code. `Store.CreateCart` models it as
  `Conflict`.

## Model

| member | source | states |
|---|---|---|
| `Validation.Message` | service/models.py:126-132 | A missing-key message ends with the missing key's name |
| `Validation.MessageInjective` | service/models.py:209-215 | Two errors have the same message only if they are the same error: the message tells which record failed, whether a key was missing and which key |
| `Products.Serialize` | service/models.py:104-112 | The dictionary has exactly the keys `id`, `shopcart_id`, `name`, `price` and `quantity`, each bound to that column's value |
| `Products.Deserialize` | service/models.py:114-133 | Input that is not a mapping fails as bad or no data and leaves the object unchanged. On a mapping, it succeeds exactly when all five keys are present, and then every column holds the mapping's value. Any failure on a mapping is a Product missing-key error |
| `Products.RoundTrip` | service/models.py:104-133 | Deserialising a product's serialisation into any product object gives back all five column values without error |
| `Products.FirstMissingKey` | service/models.py:120-127 | When keys are missing, the error names the first one missing in the order `shopcart_id`, `name`, `price`, `quantity`, `id`. The columns read before it already hold the new values and the rest keep their old ones |
| `Shopcarts.Serialize` | service/models.py:185-193 | The dictionary has exactly `customer_id` and `products`. The list has one entry per product, in cart order, and entry i is product i's own serialisation |
| `Shopcarts.LoadProducts` | service/models.py:204-208 | The loop succeeds exactly when every entry decodes into a fresh product. Then the products are the old list followed by the decoded entries. It never drops a product and never changes the customer id |
| `Shopcarts.Deserialize` | service/models.py:195-216 | A non-mapping fails as Shopcart bad data, unchanged. A missing `customer_id` fails with the Shopcart missing-key error, unchanged. Otherwise the id is assigned. An absent, null or scalar `products` fails as Shopcart bad data with the products unchanged. The old products are always a prefix of the new ones |
| `Shopcarts.StringEntriesFail` | service/models.py:205-207 | A loop over string entries succeeds only when there are none. Otherwise it fails with the Product bad-data error and appends nothing |
| `Shopcarts.MappingEntriesIterateKeys` | service/models.py:204-207 | When `products` is a mapping, the result equals looping over its keys, in any order |
| `Shopcarts.RoundTrip` | service/models.py:185-216 | Deserialising a cart's serialisation into any cart object restores the customer id. It appends the cart's products, in order, to those already there, without error |
| `Shopcarts.FreshRoundTrip` | service/models.py:185-216 | Deserialising a cart's serialisation into a fresh `Shopcart()` gives back the same cart |
| `Shopcarts.AppendsDecodedEntries` | service/models.py:201-208 | With a list of entries, deserialisation succeeds exactly when every entry decodes. Then the cart holds the given id and the old products followed by the decoded entries in input order |
| `Shopcarts.LoadProductsStopsAt` | service/models.py:205-208 | The loop stops at the first entry that fails. That entry's error is raised, and only the entries before it were appended |
| `Shopcarts.EntryErrorPropagates` | service/models.py:201-215 | The cart fails with the error of its first failing product entry. The id is assigned and only the earlier entries are appended |
| `Store.Query` | service/models.py:142 | A row is in the result of an equality filter exactly when it is in the table and its column equals the value. The result is never longer than the table |
| `Store.QueryCount` | service/models.py:142 | The filter keeps each matching row as often as the table holds it, and drops every other row |
| `Store.QueryNone` | service/models.py:142 | When no row matches, the filter is empty |
| `Store.QueryAppend` | service/models.py:142 | Filtering a concatenation equals concatenating the filtered parts, so the filter keeps table order |
| `Store.ProductsNamed` | service/models.py:135-142 | A product is in the result exactly when it is a row whose name equals the given name exactly |
| `Store.FindCart` | service/models.py:229-236 | A cart is found exactly when its customer id is in the table. The found cart has that id, and its products are exactly the rows whose `shopcart_id` equals it |
| `Store.ResolveOwners` | service/models.py:227 | There is one entry per product, and entry i is the lookup of product i's `shopcart_id` |
| `Store.CartsWithProductName` | service/models.py:222-227 | There is one entry per product named exactly that name, in query order. Each entry is the lookup of that product's `shopcart_id`: the owning cart, or `None` |
| `Store.FilterMultiplicity` | service/models.py:222-227 | An existing cart appears in the result once for each of its products with that name, so a cart holding k such products appears k times. An id that has no cart never appears |
| `Store.FilterExact` | service/models.py:222-236 | An existing cart appears in the result exactly when it owns a product with that name |
| `Store.FilterFindsOwners` | service/models.py:222-236 | When every product belongs to an existing cart, no entry is `None`, and every entry's cart holds a product with that name |
| `Store.NextKey` | service/models.py:100 | A generated key is larger than every integer key in use, so no row uses it |
| `Store.FirstNullColumn` | service/models.py:61-66 | It reports a column exactly when some `nullable=False` column holds `None`, and the reported column is one of those and holds `None` |
| `Store.Insert` | service/models.py:101-102 | The commit succeeds exactly when no `nullable=False` column is `None` and the id is `None` or unused. A refusal names one of the `nullable=False` columns that holds `None`, or the id in use. On success the row keeps every column except a `None` id, which becomes the generated key; the key is unused and the row is appended |
| `Store.CreateProduct` | service/models.py:95-102 | The commit succeeds exactly when no `nullable=False` column is `None`; otherwise it fails naming one of those columns that holds `None`, never `id`. The stored product keeps every column except `id`, gets an integer id no row uses, and is appended to the table |
| `Store.CreateIgnoresClientId` | service/models.py:100 | Whatever id the client supplied, the outcome is the same |
| `Store.InsertKeepsIdsUnique` | service/models.py:60 | If no two rows shared an id before an insert, none do after it |
| `Store.CreateKeepsIntegrity` | service/models.py:64-66 | Creating a product whose `shopcart_id` names an existing cart keeps every product row attached to an existing cart |
| `Store.CreateThenFind` | service/models.py:95-102 | After a product is created in an existing cart, finding that cart gives its old products followed by the new one |
| `Store.InsertAll` | service/models.py:182-183 | On success there is one stored row per object, in order, each equal to its object apart from the id, appended to the table. Explicit ids are kept; every stored id is not `None` and not used by an earlier row, and no two stored rows share an id, so unique ids stay unique. A refusal comes from a product row. Objects with no `None` columns and no ids are always accepted |
| `Store.CreateCart` | service/models.py:176-183 | An id that already has a cart is refused with a conflict naming it. A new or `None` id is never refused with a cart-table conflict, and a `None` id gets a generated key. On success the key is new and not `None`, it is appended to the cart table, and the cart object's products are appended to the product table in order, with the key as their `shopcart_id`; they keep explicit ids, every stored id is not `None` and not used by an earlier row, and no two share an id. A cart without products and with a new or `None` id is always created |
| `Store.CreateWithoutKeyTwice` | service/models.py:176-183 | Two successive creations without a customer id both succeed, under different keys |
| `Store.QueryAll` | service/models.py:142 | When every row matches, the filter returns the rows unchanged |
| `Store.CreateCartThenFind` | service/models.py:176-183 | When every product belongs to an existing cart, the new cart is then found with its key and exactly the products it was created with, in order |
| `Store.CreateCartKeepsIdsUnique` | service/models.py:176-183 | If no two product rows shared an id before a cart is created, none do after the cascade inserts its products |
| `Store.CreateCartKeepsIntegrity` | service/models.py:176-183 | Creating a cart keeps every product row attached to an existing cart |

## Left out

- `update`, `delete`, `init_db` and `all` (service/models.py:27-48, 81-86, 162-174) are not modelled. They only commit or delete through the database session, whose transaction behaviour is not visible in this code.
- `Product.find` (service/models.py:68-72) is a primary-key lookup through the session and is not modelled.
- Cascade on cart deletion is not modelled. The relationship sets `passive_deletes=True`, but the foreign key declares no `ondelete`, so the code does not establish a cascade.
- Price is a float, carried as an opaque `JNum` value. Nothing computes with it.
- The key order of serialised dictionaries is not modelled. A mapping is a `map`, which has no order.
- Validation.Message: the interpreter's `TypeError` text, which the source appends to a bad-data message, is not modelled.
- Store.NextKey: the database picks a generated key. The model picks one more than the largest integer key in use. The proved property is only that the key is fresh. The success claims of `Store.CreateProduct`, `Store.CreateCart` and `Store.CreateWithoutKeyTwice` rest on this: they hold for a generator that stays above every key in use, but not for a sequence-based autoincrement (such as a PostgreSQL `SERIAL` column), which does not advance past explicitly inserted keys and can then hand out a key already in use.
- Store.Insert: when a row breaks several constraints, which one the database reports is not visible in the code. The model reports the first `None` column in table order, and checks for `None` before the key.
- The database's conversion of column values to the column types at commit is not modelled. Neither is the foreign-key check on `shopcart_id`. Apart from generated keys and the cart key written into its products, rows hold the values the objects held.
- Shopcarts.Deserialize: it does not flush, so a decoded product keeps the `shopcart_id` from its own entry until the cart is committed.
- Store.CreateProduct and Store.CreateCart: a refused commit returns only the error. In the source the object has already been changed by then: `Product.create` has set its `id` to `None` (service/models.py:100) and `Shopcart.create` has set its `customer_id` (service/models.py:181), and that change stays on the object after the failure.
- Store.CreateCart: every product on the cart object is treated as a new object. A product that is already a row would not be inserted again; the model does not tell such objects apart.
- Shopcarts.Deserialize: when `products` is a mapping, the model does not say which key fails. Every key fails the same way, so the error and the resulting cart do not depend on it.
- Row order is not visible in the code. Neither the `products` relationship nor the two `query.filter` calls (service/models.py:142, 236) ask for an order. The model takes table order, so "in query order" and "keeps table order" describe that choice, not a promise of the source.
- `__repr__`, `__str__` and the logging calls are not modelled.
- The HTTP routes (service/routes.py) are not part of this model. Neither is the application set-up (service/__init__.py).
