/**
 * The GraphQL resolvers (app/resolvers.py): three read queries over the
 * products table, and the two write paths.
 *
 * Each write path is given twice: as a function from the committed table
 * (and the oracles that decide whether the broker and the database accept)
 * to the new table, the steps taken and the response, whose postconditions
 * state what the path promises; and as a method that runs the code's steps
 * against a `Database`, proved to agree with the function.
 */
module Resolvers {
  import opened Wrappers
  import opened Models
  import opened Broker
  import opened Store

  // ---------------------------------------------------------------------------
  // Read queries
  // ---------------------------------------------------------------------------

  /** `products`: every stored record (the order the database returns them in is not modelled). */
  function FetchProducts(t: Table): (r: set<Product>)
    requires WellFormed(t)
    ensures forall id | id in t :: t[id] in r
    ensures forall p | p in r :: p.id in t && t[p.id] == p
  {
    set id | id in t :: t[id]
  }

  /** `product(id)`: the record stored under `id`, or `None` when there is none. */
  function FetchProduct(t: Table, id: int): (r: Option<Product>)
    requires WellFormed(t)
    ensures r.None? <==> id !in t
    ensures r.Some? ==> r.value.id == id && t[id] == r.value
  {
    if id in t then Some(t[id]) else None
  }

  /** `productByIds(ids)`: `to_dict` of exactly the stored records whose id is listed, each once. */
  function ProductByIds(t: Table, ids: seq<int>): (r: set<Dict>)
    requires WellFormed(t)
    ensures forall id | id in t :: ToDict(t[id]) in r <==> id in ids
    ensures forall d | d in r :: FromDict(d).Some? && FromDict(d).value.id in ids
                                 && FromDict(d).value.id in t && t[FromDict(d).value.id] == FromDict(d).value
  {
    set id | id in t && id in ids :: ToDict(t[id])
  }

  // ---------------------------------------------------------------------------
  // updateProductInventory: publish, then commit
  // ---------------------------------------------------------------------------

  datatype UpdateError = ProductNotFound | InsufficientStock | PublishFailure | CommitFailure

  /** The `errors` string of the failure envelope; a failed commit reports the database driver's own text. */
  function ErrorText(e: UpdateError): (text: Option<string>)
    ensures text.None? <==> e == CommitFailure
  {
    match e
    case ProductNotFound => Some("Product not found")
    case InsufficientStock => Some("Insufficient stock to complete the operation")
    case PublishFailure => Some("Failed to publish inventory update event")
    case CommitFailure => None
  }

  /** The `{success, product}` / `{success, errors}` envelope. */
  datatype UpdatePayload = UpdateSucceeded(product: Dict) | UpdateFailed(error: UpdateError)

  datatype AdjustOutcome = AdjustOutcome(table: Table, steps: seq<Step>, payload: UpdatePayload)

  function InventoryEvent(p: Product): (e: Event) {
    Event(InventoryUpdatedQueue, InventoryUpdated(p.id, p.stock))
  }

  /** What `update_product_inventory(product_id, stock_change)` does to the committed table `t`. */
  function Adjust(t: Table, productId: int, stockChange: int, publishOk: bool, commitOk: bool): (r: AdjustOutcome)
    requires WellFormed(t)
    ensures WellFormed(r.table) && r.table.Keys == t.Keys
    ensures r.payload.UpdateSucceeded? <==>
              productId in t && t[productId].stock + stockChange >= 0 && publishOk && commitOk
    ensures r.payload.UpdateSucceeded? ==>
              && r.table == t[productId := t[productId].(stock := t[productId].stock + stockChange)]
              && r.table[productId].stock >= 0
              && r.payload.product == ToDict(r.table[productId])
    ensures r.payload.UpdateFailed? ==> r.table == t && |r.steps| > 0 && r.steps[|r.steps| - 1] == RolledBack
    ensures productId !in t ==> r.payload == UpdateFailed(ProductNotFound)
    ensures productId in t && t[productId].stock + stockChange < 0 ==>
              r.payload == UpdateFailed(InsufficientStock)
    ensures productId in t && t[productId].stock + stockChange >= 0 && !publishOk ==>
              r.payload == UpdateFailed(PublishFailure)
    ensures productId in t && t[productId].stock + stockChange >= 0 && publishOk && !commitOk ==>
              r.payload == UpdateFailed(CommitFailure)
    ensures Events(r.steps) ==
              if productId in t && t[productId].stock + stockChange >= 0 && publishOk
              then [Event(InventoryUpdatedQueue, InventoryUpdated(productId, t[productId].stock + stockChange))]
              else []
    ensures PublishPrecedesCommit(r.steps)
    ensures Committed in r.steps || CommitFailed in r.steps ==> publishOk
    ensures Committed in r.steps <==> r.payload.UpdateSucceeded?
  {
    if productId !in t then
      AdjustOutcome(t, [RolledBack], UpdateFailed(ProductNotFound))
    else
      var p := t[productId];
      if p.stock + stockChange < 0 then
        AdjustOutcome(t, [RolledBack], UpdateFailed(InsufficientStock))
      else
        var updated := p.(stock := p.stock + stockChange);
        var e := InventoryEvent(updated);
        StockUpdateWellFormed(t, productId, updated.stock);
        if !publishOk then
          AdjustOutcome(t, [PublishFailed(e), RolledBack], UpdateFailed(PublishFailure))
        else if !commitOk then
          assert Events([CommitFailed, RolledBack]) == [] by {
            assert [CommitFailed, RolledBack][1..] == [RolledBack];
          }
          assert [Published(e), CommitFailed, RolledBack][1..] == [CommitFailed, RolledBack];
          AdjustOutcome(t, [Published(e), CommitFailed, RolledBack], UpdateFailed(CommitFailure))
        else
          AdjustOutcome(t[productId := updated], [Published(e), Committed], UpdateSucceeded(ToDict(updated)))
  }

  method UpdateProductInventory(db: Database, productId: int, stockChange: int, publishOk: bool, commitOk: bool)
    returns (payload: UpdatePayload)
    requires db.AtRest()
    modifies db
    ensures db.AtRest() && db.nextId == old(db.nextId)
    ensures var o := Adjust(old(db.committed), productId, stockChange, publishOk, commitOk);
            db.committed == o.table && db.trace == old(db.trace) + o.steps && payload == o.payload
  {
    var found := db.Get(productId);
    if found.None? {
      db.Rollback();
      return UpdateFailed(ProductNotFound);
    }
    var product := found.value;
    if product.stock + stockChange < 0 {
      db.Rollback();
      return UpdateFailed(InsufficientStock);
    }
    product := product.(stock := product.stock + stockChange);
    db.Stage(product);
    StockUpdateWellFormed(old(db.committed), productId, product.stock);
    var sent := db.Publish(InventoryEvent(product), publishOk);
    if !sent {
      db.Rollback();
      return UpdateFailed(PublishFailure);
    }
    var done := db.Commit(commitOk);
    if !done {
      db.Rollback();
      return UpdateFailed(CommitFailure);
    }
    payload := UpdateSucceeded(ToDict(product));
  }

  // ---------------------------------------------------------------------------
  // createProduct: commit, then publish
  // ---------------------------------------------------------------------------

  /** The GraphQL input; `input.get(key)` is `None` for a missing key. */
  datatype CreateInput = CreateInput(
    name: Option<string>,
    description: Option<string>,
    price: Option<real>,
    stock: Option<int>,
    sku: Option<string>,
    category: Option<string>)

  /** `Created` returns the new record; `CreateFailed` is the exception raised to the caller. */
  datatype CreateResult = Created(product: Product) | CreateFailed(message: string)

  datatype CreateOutcome = CreateOutcome(table: Table, nextId: int, steps: seq<Step>, result: CreateResult)

  const MissingDataMessage: string := "Please enter all the product data"
  const CreateFailedMessage: string := "Failed to create a product."

  /** Python truth of an optional string: `None` and `""` are false. */
  predicate Truthy(s: Option<string>) {
    s.Some? && s.value != ""
  }

  /** Python truth of a tuple: true exactly when it is not empty. */
  predicate TupleTruthy<T>(t: seq<T>) {
    |t| > 0
  }

  /**
   * The test `not name or ... or not category` as it runs. The trailing commas bind `name`,
   * `description`, `price` and `stock` to one-element tuples; `sku` and `category` are the values.
   */
  predicate PassesValidation(input: CreateInput): (ok: bool)
    ensures ok <==> input.sku.Some? && input.sku.value != "" && input.category.Some? && input.category.value != ""
  {
    !(|| !TupleTruthy([input.name]) || !TupleTruthy([input.description]) || !TupleTruthy([input.price])
      || !TupleTruthy([input.stock]) || !Truthy(input.sku) || !Truthy(input.category))
  }

  /** Whatever is given, or not given, as name, description, price and stock, validation answers the same. */
  lemma ValidationIgnoresTuples(input: CreateInput, name: Option<string>, description: Option<string>,
                                price: Option<real>, stock: Option<int>)
    ensures PassesValidation(input.(name := name, description := description, price := price, stock := stock))
            == PassesValidation(input)
  {
  }

  /** No NOT NULL column is left NULL by the insert. */
  predicate Complete(input: CreateInput) {
    && input.name.Some? && input.description.Some? && input.price.Some?
    && input.stock.Some? && input.sku.Some? && input.category.Some?
  }

  /** The row the insert writes under `id`, which is also what `new_product` reads back after the commit. */
  function NewProduct(id: int, input: CreateInput): (p: Product)
    requires Complete(input)
    ensures p.id == id && p.description == input.description.value
    ensures p.price == input.price.value && p.stock == input.stock.value
    ensures p.name <= input.name.value && p.category <= input.category.value && p.sku <= input.sku.value
  {
    Written(Product(id, input.name.value, input.description.value, input.price.value,
                    input.stock.value, input.category.value, input.sku.value))
  }

  /** The commit of the row `p` meets every constraint and the database lets it through. */
  predicate Stored(t: Table, p: Product, commitOk: bool) {
    Fits(p) && !NameTaken(t, p.name) && !SkuTaken(t, p.sku) && commitOk
  }

  /**
   * The insert becomes durable: validation passes, the code's sku lookup finds nothing, and the
   * commit meets every constraint on the row as written.
   */
  predicate Inserted(t: Table, nextId: int, input: CreateInput, commitOk: bool) {
    && PassesValidation(input) && !SkuTaken(t, input.sku.value) && Complete(input)
    && Stored(t, NewProduct(nextId, input), commitOk)
  }

  function CreatedEvent(p: Product): (e: Event)
    ensures e.routingKey == ProductCreatedQueue
    ensures e.payload == ProductCreated(p.id, p.name, p.price, p.stock)
  {
    Event(ProductCreatedQueue, ProductCreated(p.id, p.name, p.price, p.stock))
  }

  /** The `try` block of `handle_create_product` from `db.session.add` on, for the complete row `p`. */
  function Insert(t: Table, p: Product, publishOk: bool, commitOk: bool): (r: CreateOutcome)
    requires WellFormed(t) && Below(t, p.id)
    ensures WellFormed(r.table) && Below(r.table, r.nextId) && r.nextId == p.id + 1
    ensures Stored(t, p, commitOk) ==> p.id !in t && r.table == t[p.id := p]
    ensures !Stored(t, p, commitOk) ==> r.table == t
    ensures r.result.Created? <==> Stored(t, p, commitOk) && publishOk
    ensures r.result.Created? ==> r.result.product == r.table[p.id]
    ensures r.result.CreateFailed? ==> r.result.message == CreateFailedMessage
    ensures Events(r.steps) == if Stored(t, p, commitOk) && publishOk then [CreatedEvent(p)] else []
    ensures CommitPrecedesPublish(r.steps)
    ensures Committed in r.steps <==> Stored(t, p, commitOk)
  {
    InsertSteps(CreatedEvent(p));
    if !Stored(t, p, commitOk) then
      CreateOutcome(t, p.id + 1, [CommitFailed, RolledBack], CreateFailed(CreateFailedMessage))
    else
      assert WellFormed(t[p.id := p]) by { InsertWellFormed(t, p); }
      if !publishOk then
        CreateOutcome(t[p.id := p], p.id + 1, [Committed, PublishFailed(CreatedEvent(p)), RolledBack],
                      CreateFailed(CreateFailedMessage))
      else
        CreateOutcome(t[p.id := p], p.id + 1, [Committed, Published(CreatedEvent(p))], Created(p))
  }

  /** The broker's view of the three step lists an attempted insert can leave. */
  lemma InsertSteps(e: Event)
    ensures Events([CommitFailed, RolledBack]) == [] && CommitPrecedesPublish([CommitFailed, RolledBack])
    ensures Committed !in [CommitFailed, RolledBack]
    ensures Events([Committed, PublishFailed(e), RolledBack]) == []
    ensures CommitPrecedesPublish([Committed, PublishFailed(e), RolledBack])
    ensures Events([Committed, Published(e)]) == [e] && CommitPrecedesPublish([Committed, Published(e)])
  {
    var failed := [CommitFailed, RolledBack];
    assert failed[1..] == [RolledBack];
    var unsent := [Committed, PublishFailed(e), RolledBack];
    assert unsent[1..] == [PublishFailed(e), RolledBack] && unsent[1..][1..] == [RolledBack];
    var sent := [Committed, Published(e)];
    assert sent[1..] == [Published(e)];
    assert sent[0].Committed?;
  }

  /** What `handle_create_product(input)` does to the committed table `t` with sequence value `nextId`. */
  function Create(t: Table, nextId: int, input: CreateInput, publishOk: bool, commitOk: bool): (r: CreateOutcome)
    requires WellFormed(t) && Below(t, nextId)
    ensures WellFormed(r.table) && Below(r.table, r.nextId)
    ensures Inserted(t, nextId, input, commitOk) ==>
              nextId !in t && r.table == t[nextId := NewProduct(nextId, input)]
    ensures !Inserted(t, nextId, input, commitOk) ==> r.table == t
    ensures r.result.Created? <==> Inserted(t, nextId, input, commitOk) && publishOk
    ensures r.result.Created? ==> r.result.product == r.table[nextId]
    ensures !PassesValidation(input) ==>
              r.result == CreateFailed(MissingDataMessage) && r.steps == [] && r.nextId == nextId
    ensures PassesValidation(input) && r.result.CreateFailed? ==> r.result.message == CreateFailedMessage
    ensures PassesValidation(input) && SkuTaken(t, input.sku.value) ==>
              r.table == t && r.nextId == nextId && r.result.CreateFailed? && r.steps == [RolledBack]
    ensures Events(r.steps) ==
              if Inserted(t, nextId, input, commitOk) && publishOk
              then [CreatedEvent(NewProduct(nextId, input))] else []
    ensures CommitPrecedesPublish(r.steps)
    ensures Committed in r.steps <==> Inserted(t, nextId, input, commitOk)
  {
    if !PassesValidation(input) then
      CreateOutcome(t, nextId, [], CreateFailed(MissingDataMessage))
    else if SkuTaken(t, input.sku.value) then
      CreateOutcome(t, nextId, [RolledBack], CreateFailed(CreateFailedMessage))
    else if !Complete(input) then
      CreateOutcome(t, nextId + 1, [CommitFailed, RolledBack], CreateFailed(CreateFailedMessage))
    else
      Insert(t, NewProduct(nextId, input), publishOk, commitOk)
  }

  /**
   * No publish is attempted, not even a failed one, unless the row was committed; every insert
   * that is attempted takes one value of the id sequence, whatever becomes of it.
   */
  lemma CreateSteps(t: Table, nextId: int, input: CreateInput, publishOk: bool, commitOk: bool)
    requires WellFormed(t) && Below(t, nextId)
    ensures var r := Create(t, nextId, input, publishOk, commitOk);
            forall k | 0 <= k < |r.steps| && (r.steps[k].Published? || r.steps[k].PublishFailed?) ::
              Inserted(t, nextId, input, commitOk) && 0 < k && r.steps[k - 1] == Committed
    ensures var r := Create(t, nextId, input, publishOk, commitOk);
            PassesValidation(input) && !SkuTaken(t, input.sku.value) ==> r.nextId == nextId + 1
  {
  }

  method HandleCreateProduct(db: Database, input: CreateInput, publishOk: bool, commitOk: bool)
    returns (result: CreateResult)
    requires db.AtRest()
    modifies db
    ensures db.AtRest()
    ensures var o := Create(old(db.committed), old(db.nextId), input, publishOk, commitOk);
            db.committed == o.table && db.nextId == o.nextId && db.trace == old(db.trace) + o.steps
            && result == o.result
  {
    if !PassesValidation(input) {
      return CreateFailed(MissingDataMessage);
    }
    var taken := db.SkuExists(input.sku.value);
    if taken {
      db.Rollback();
      return CreateFailed(CreateFailedMessage);
    }
    var id := db.Add(input.name, input.description, input.price, input.stock, input.category, input.sku);
    if !Complete(input) {
      var done := db.Commit(commitOk);
      db.Rollback();
      return CreateFailed(CreateFailedMessage);
    }
    result := InsertProduct(db, NewProduct(id, input), publishOk, commitOk);
  }

  /** The commit, the publish and the rollbacks of `handle_create_product` once the complete row `p` is added. */
  method InsertProduct(db: Database, p: Product, publishOk: bool, commitOk: bool) returns (result: CreateResult)
    requires db.Valid() && !db.nullRow && Below(db.committed, p.id)
    requires db.pending == db.committed[p.id := p] && db.nextId == p.id + 1
    modifies db
    ensures db.AtRest()
    ensures var o := Insert(old(db.committed), p, publishOk, commitOk);
            db.committed == o.table && db.nextId == o.nextId && db.trace == old(db.trace) + o.steps
            && result == o.result
  {
    InsertWellFormed(db.committed, p);
    var done := db.Commit(commitOk);
    if !done {
      db.Rollback();
      return CreateFailed(CreateFailedMessage);
    }
    var sent := db.Publish(CreatedEvent(p), publishOk);
    if !sent {
      db.Rollback();
      return CreateFailed(CreateFailedMessage);
    }
    result := Created(p);
  }



  // ---------------------------------------------------------------------------
  // Concrete runs
  // ---------------------------------------------------------------------------

  /** Ten in stock; taking three succeeds and announces 7; taking twenty more is refused and 7 stays. */
  lemma AdjustExample()
    ensures var t := map[1 := Product(1, "Widget", "A widget", 9.5, 10, "tools", "W-1")];
            var r := Adjust(t, 1, -3, true, true);
            && r.payload.UpdateSucceeded? && r.table[1].stock == 7
            && Events(r.steps) == [Event(InventoryUpdatedQueue, InventoryUpdated(1, 7))]
            && var r' := Adjust(r.table, 1, -20, true, true);
               r'.payload == UpdateFailed(InsufficientStock) && r'.table[1].stock == 7 && Events(r'.steps) == []
  {
  }

  /** A change of zero still commits and still publishes the unchanged stock. */
  lemma AdjustZero(t: Table, productId: int)
    requires WellFormed(t) && productId in t && t[productId].stock >= 0
    ensures var r := Adjust(t, productId, 0, true, true);
            && r.payload.UpdateSucceeded? && r.table == t
            && Events(r.steps) == [Event(InventoryUpdatedQueue, InventoryUpdated(productId, t[productId].stock))]
  {
  }

  /**
   * Stock the consumer drove below zero refuses every change that does not bring it back to zero
   * or above, a change of zero included.
   */
  lemma AdjustNegativeStock(t: Table, productId: int, stockChange: int)
    requires WellFormed(t) && productId in t && t[productId].stock + stockChange < 0
    ensures var r := Adjust(t, productId, stockChange, true, true);
            r.payload == UpdateFailed(InsufficientStock) && r.table == t && Events(r.steps) == []
  {
  }

  /**
   * Only `sku` and `category` are checked before the insert: an input without a name gets past
   * validation, consumes an id, and is refused only by the NOT NULL constraint at commit, with the
   * generic failure message.
   */
  lemma CreateWithoutName(t: Table, nextId: int, input: CreateInput)
    requires WellFormed(t) && Below(t, nextId)
    requires input.name.None? && Truthy(input.sku) && Truthy(input.category) && !SkuTaken(t, input.sku.value)
    ensures var r := Create(t, nextId, input, true, true);
            && r.result == CreateFailed(CreateFailedMessage) && r.table == t
            && r.nextId == nextId + 1 && r.steps == [CommitFailed, RolledBack]
  {
  }

  /** Empty strings, a zero price and a zero stock are stored as given: validation does not look at them. */
  lemma CreateWithBlankFields(t: Table, nextId: int, sku: string, category: string)
    requires WellFormed(t) && Below(t, nextId) && sku != "" && category != "" && !SkuTaken(t, sku)
    requires |sku| <= SkuWidth && |category| <= CategoryWidth && !NameTaken(t, "")
    ensures var input := CreateInput(Some(""), Some(""), Some(0.0), Some(0), Some(sku), Some(category));
            var r := Create(t, nextId, input, true, true);
            r.result == Created(Product(nextId, "", "", 0.0, 0, category, sku))
  {
    var input := CreateInput(Some(""), Some(""), Some(0.0), Some(0), Some(sku), Some(category));
    var p := Product(nextId, "", "", 0.0, 0, category, sku);
    assert Fits(p) && NewProduct(nextId, input) == p;
    assert Inserted(t, nextId, input, true);
  }

  /**
   * A name with a character other than a space past its `String(256)` column passes validation but
   * is refused when the row is written.
   */
  lemma CreateTooLongName(t: Table, nextId: int, input: CreateInput)
    requires WellFormed(t) && Below(t, nextId) && Complete(input) && PassesValidation(input)
    requires !SkuTaken(t, input.sku.value)
    requires exists i | NameWidth <= i < |input.name.value| :: input.name.value[i] != ' '
    ensures var r := Create(t, nextId, input, true, true);
            && r.result == CreateFailed(CreateFailedMessage) && r.table == t
            && r.nextId == nextId + 1 && r.steps == [CommitFailed, RolledBack]
  {
  }

  /**
   * A name whose characters past its `String(256)` column are all spaces is cut to 256 characters:
   * the row is stored, returned and announced with the shortened name.
   */
  lemma CreateTruncatedName(t: Table, nextId: int, input: CreateInput)
    requires WellFormed(t) && Below(t, nextId) && Complete(input) && PassesValidation(input)
    requires |input.name.value| > NameWidth && forall i | NameWidth <= i < |input.name.value| :: input.name.value[i] == ' '
    requires |input.category.value| <= CategoryWidth && |input.sku.value| <= SkuWidth
    requires !SkuTaken(t, input.sku.value) && !NameTaken(t, input.name.value[..NameWidth])
    ensures var r := Create(t, nextId, input, true, true);
            && r.result.Created? && r.result.product.name == input.name.value[..NameWidth]
            && r.table == t[nextId := r.result.product]
            && Events(r.steps) == [CreatedEvent(r.result.product)]
  {
  }
}
