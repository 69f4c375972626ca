/**
 * The order-placed consumer (consumer.py): for each line item of an
 * `order.placed` message, in order, decrement the product's stock and commit;
 * skip ids that are not stored; then publish one aggregate
 * `inventory.updated` message listing `{product_id, quantity}` (the new
 * stock) for every applied item. There is no lower bound on the stock here.
 * An exception (a failed commit or a failed publish) ends the handler; it is
 * logged and swallowed, and what was committed stays committed.
 */
module Consumer {
  import opened Wrappers
  import opened Models
  import opened Broker
  import opened Store

  datatype LineItem = LineItem(productId: int, quantity: int)

  /** The decoded `order.placed` message `{items: [...]}`. */
  datatype OrderPlaced = OrderPlaced(items: seq<LineItem>)

  /** The loop's result: the committed table, the steps taken, the entries collected, and whether a commit raised. */
  datatype BatchOutcome = BatchOutcome(table: Table, steps: seq<Step>, entries: seq<StockEntry>, failed: bool)

  datatype ConsumerOutcome = ConsumerOutcome(table: Table, steps: seq<Step>)

  /** Total quantity ordered of product `id` over `items`. */
  function Ordered(items: seq<LineItem>, id: int): (n: int) {
    if items == [] then 0
    else (if items[0].productId == id then items[0].quantity else 0) + Ordered(items[1..], id)
  }

  /** The ids of the items whose product is stored, in item order, repeats kept. */
  function FoundIds(keys: set<int>, items: seq<LineItem>): (ids: seq<int>)
    ensures |ids| <= |items|
    ensures forall k | 0 <= k < |ids| :: ids[k] in keys
  {
    if items == [] then []
    else (if items[0].productId in keys then [items[0].productId] else []) + FoundIds(keys, items[1..])
  }

  function EntryIds(entries: seq<StockEntry>): (ids: seq<int>)
    ensures |ids| == |entries|
    ensures forall k | 0 <= k < |ids| :: ids[k] == entries[k].productId
  {
    if entries == [] then [] else [entries[0].productId] + EntryIds(entries[1..])
  }

  predicate AllTrue(oks: seq<bool>) {
    forall k | 0 <= k < |oks| :: oks[k]
  }

  /** `steps` and `entries` happened first, then `r`. */
  function Then(steps: seq<Step>, entries: seq<StockEntry>, r: BatchOutcome): (o: BatchOutcome) {
    BatchOutcome(r.table, steps + r.steps, entries + r.entries, r.failed)
  }

  /** The `for item in products` loop of `update_inventory_on_order_placed`; `commitOks[k]` decides the commit of item `k`. */
  function ApplyItems(t: Table, items: seq<LineItem>, commitOks: seq<bool>): (r: BatchOutcome)
    requires |commitOks| == |items|
    decreases |items|
    ensures r.table.Keys == t.Keys
    ensures |r.entries| <= |items|
    ensures |r.steps| == |r.entries| + (if r.failed then 1 else 0)
  {
    if items == [] then BatchOutcome(t, [], [], false)
    else
      var item := items[0];
      if item.productId !in t then
        ApplyItems(t, items[1..], commitOks[1..])
      else
        var p := t[item.productId].(stock := t[item.productId].stock - item.quantity);
        if !commitOks[0] then
          BatchOutcome(t, [CommitFailed], [], true)
        else
          var rest := ApplyItems(t[item.productId := p], items[1..], commitOks[1..]);
          BatchOutcome(rest.table, [Committed] + rest.steps, [StockEntry(p.id, p.stock)] + rest.entries, rest.failed)
  }

  /** The loop keeps the table's constraints. */
  lemma {:induction false} ApplyItemsWellFormed(t: Table, items: seq<LineItem>, commitOks: seq<bool>)
    requires WellFormed(t) && |commitOks| == |items|
    decreases |items|
    ensures WellFormed(ApplyItems(t, items, commitOks).table)
  {
    if items != [] {
      var item := items[0];
      if item.productId !in t {
        ApplyItemsWellFormed(t, items[1..], commitOks[1..]);
      } else if commitOks[0] {
        var p := t[item.productId].(stock := t[item.productId].stock - item.quantity);
        StockUpdateWellFormed(t, item.productId, p.stock);
        ApplyItemsWellFormed(t[item.productId := p], items[1..], commitOks[1..]);
      }
    }
  }

  /** The loop changes nothing but stock. */
  lemma {:induction false} ApplyItemsOnlyStock(t: Table, items: seq<LineItem>, commitOks: seq<bool>)
    requires |commitOks| == |items|
    decreases |items|
    ensures var r := ApplyItems(t, items, commitOks);
            forall id | id in t :: r.table[id] == t[id].(stock := r.table[id].stock)
  {
    if items != [] {
      var item := items[0];
      if item.productId !in t {
        ApplyItemsOnlyStock(t, items[1..], commitOks[1..]);
      } else if commitOks[0] {
        var p := t[item.productId].(stock := t[item.productId].stock - item.quantity);
        ApplyItemsOnlyStock(t[item.productId := p], items[1..], commitOks[1..]);
      }
    }
  }

  /** The loop publishes nothing and commits once per applied item; a failed commit is its last step. */
  lemma {:induction false} ApplyItemsSteps(t: Table, items: seq<LineItem>, commitOks: seq<bool>)
    requires |commitOks| == |items|
    decreases |items|
    ensures var r := ApplyItems(t, items, commitOks);
            && Events(r.steps) == []
            && (forall k | 0 <= k < |r.entries| :: r.steps[k] == Committed)
            && (r.failed ==> r.steps[|r.steps| - 1] == CommitFailed)
  {
    if items != [] {
      var item := items[0];
      if item.productId !in t {
        ApplyItemsSteps(t, items[1..], commitOks[1..]);
      } else if commitOks[0] {
        var p := t[item.productId].(stock := t[item.productId].stock - item.quantity);
        var rest := ApplyItems(t[item.productId := p], items[1..], commitOks[1..]);
        ApplyItemsSteps(t[item.productId := p], items[1..], commitOks[1..]);
        assert ([Committed] + rest.steps)[1..] == rest.steps;
      }
    }
  }

  /** Turn `i` of the loop on an unknown id: the item is skipped. */
  lemma ApplyItemsSkip(t: Table, items: seq<LineItem>, commitOks: seq<bool>, i: nat)
    requires |commitOks| == |items| && i < |items| && items[i].productId !in t
    ensures ApplyItems(t, items[i..], commitOks[i..]) == ApplyItems(t, items[i + 1..], commitOks[i + 1..])
  {
  }

  /** Turn `i` of the loop on a stored id: the stock is decremented and the commit decides what follows. */
  lemma ApplyItemsApply(t: Table, items: seq<LineItem>, commitOks: seq<bool>, i: nat, p: Product)
    requires WellFormed(t) && |commitOks| == |items| && i < |items| && items[i].productId in t
    requires p == t[items[i].productId].(stock := t[items[i].productId].stock - items[i].quantity)
    ensures WellFormed(t[p.id := p]) && p.id == items[i].productId
    ensures commitOks[i] ==>
              ApplyItems(t, items[i..], commitOks[i..]) ==
              Then([Committed], [StockEntry(p.id, p.stock)], ApplyItems(t[p.id := p], items[i + 1..], commitOks[i + 1..]))
    ensures !commitOks[i] ==> ApplyItems(t, items[i..], commitOks[i..]) == BatchOutcome(t, [CommitFailed], [], true)
  {
  }

  lemma ThenThen(steps: seq<Step>, entries: seq<StockEntry>, steps': seq<Step>, entries': seq<StockEntry>, r: BatchOutcome)
    ensures Then(steps, entries, Then(steps', entries', r)) == Then(steps + steps', entries + entries', r)
  {
  }

  /** When every commit goes through, the loop runs to the end. */
  lemma {:induction false} ApplyItemsCompletes(t: Table, items: seq<LineItem>, commitOks: seq<bool>)
    requires |commitOks| == |items|
    decreases |items|
    ensures AllTrue(commitOks) ==> !ApplyItems(t, items, commitOks).failed
  {
    if items != [] && AllTrue(commitOks) {
      var item := items[0];
      if item.productId !in t {
        ApplyItemsCompletes(t, items[1..], commitOks[1..]);
      } else {
        var p := t[item.productId].(stock := t[item.productId].stock - item.quantity);
        ApplyItemsCompletes(t[item.productId := p], items[1..], commitOks[1..]);
      }
    }
  }

  /** A completed loop lowers each stored product's stock by exactly the quantity ordered of it, with no lower bound. */
  lemma {:induction false} ApplyItemsStock(t: Table, items: seq<LineItem>, commitOks: seq<bool>)
    requires |commitOks| == |items|
    decreases |items|
    ensures var r := ApplyItems(t, items, commitOks);
            !r.failed ==> forall id | id in t :: r.table[id].stock == t[id].stock - Ordered(items, id)
  {
    if items != [] {
      var item := items[0];
      if item.productId !in t {
        ApplyItemsStock(t, items[1..], commitOks[1..]);
      } else if commitOks[0] {
        var p := t[item.productId].(stock := t[item.productId].stock - item.quantity);
        ApplyItemsStock(t[item.productId := p], items[1..], commitOks[1..]);
      }
    }
  }

  /** A completed loop lists one entry per stored item, in item order; unknown ids are skipped. */
  lemma {:induction false} ApplyItemsEntries(t: Table, items: seq<LineItem>, commitOks: seq<bool>)
    requires WellFormed(t) && |commitOks| == |items|
    decreases |items|
    ensures var r := ApplyItems(t, items, commitOks);
            !r.failed ==> EntryIds(r.entries) == FoundIds(t.Keys, items)
  {
    if items != [] {
      var item := items[0];
      if item.productId !in t {
        ApplyItemsEntries(t, items[1..], commitOks[1..]);
      } else if commitOks[0] {
        var p := t[item.productId].(stock := t[item.productId].stock - item.quantity);
        StockUpdateWellFormed(t, item.productId, p.stock);
        var rest := ApplyItems(t[item.productId := p], items[1..], commitOks[1..]);
        ApplyItemsEntries(t[item.productId := p], items[1..], commitOks[1..]);
        assert ([StockEntry(p.id, p.stock)] + rest.entries)[1..] == rest.entries;
      }
    }
  }

  function BatchEvent(entries: seq<StockEntry>): (e: Event) {
    Event(InventoryUpdatedQueue, InventoryBatch(entries))
  }

  /** `update_inventory_on_order_placed`: the loop, then one publish unless a commit raised. */
  function OrderPlacedOutcome(t: Table, items: seq<LineItem>, commitOks: seq<bool>, publishOk: bool): (r: ConsumerOutcome)
    requires WellFormed(t) && |commitOks| == |items|
    ensures WellFormed(r.table) && r.table.Keys == t.Keys
    ensures var b := ApplyItems(t, items, commitOks);
            && r.table == b.table
            && Events(r.steps) == (if !b.failed && publishOk then [BatchEvent(b.entries)] else [])
            && (!b.failed ==> |r.steps| > 0 && r.steps[|r.steps| - 1] == (if publishOk then Published(BatchEvent(b.entries)) else PublishFailed(BatchEvent(b.entries))))
    ensures forall k | 0 <= k < |r.steps| - 1 :: !r.steps[k].Published? && !r.steps[k].PublishFailed?
    ensures AllTrue(commitOks) && publishOk ==>
              exists entries :: Events(r.steps) == [BatchEvent(entries)] && EntryIds(entries) == FoundIds(t.Keys, items)
  {
    var b := ApplyItems(t, items, commitOks);
    ApplyItemsWellFormed(t, items, commitOks);
    ApplyItemsSteps(t, items, commitOks);
    ApplyItemsCompletes(t, items, commitOks);
    ApplyItemsEntries(t, items, commitOks);
    if b.failed then ConsumerOutcome(b.table, b.steps)
    else
      var last := if publishOk then Published(BatchEvent(b.entries)) else PublishFailed(BatchEvent(b.entries));
      EventsAppend(b.steps, [last]);
      ConsumerOutcome(b.table, b.steps + [last])
  }

  /** A product with no entry is one the loop never committed a change to. */
  lemma {:induction false} ApplyItemsUntouched(t: Table, items: seq<LineItem>, commitOks: seq<bool>, id: int)
    requires WellFormed(t) && |commitOks| == |items| && id in t
    requires var r := ApplyItems(t, items, commitOks);
             forall j | 0 <= j < |r.entries| :: r.entries[j].productId != id
    decreases |items|
    ensures ApplyItems(t, items, commitOks).table[id] == t[id]
  {
    if items != [] {
      var item := items[0];
      if item.productId !in t {
        assert ApplyItems(t, items, commitOks) == ApplyItems(t, items[1..], commitOks[1..]);
        ApplyItemsUntouched(t, items[1..], commitOks[1..], id);
      } else if commitOks[0] {
        var p := t[item.productId].(stock := t[item.productId].stock - item.quantity);
        StockUpdateWellFormed(t, item.productId, p.stock);
        var rest := ApplyItems(t[item.productId := p], items[1..], commitOks[1..]);
        assert ApplyItems(t, items, commitOks).entries[0].productId == p.id == item.productId != id;
        assert forall j | 0 <= j < |rest.entries| :: rest.entries[j] == ApplyItems(t, items, commitOks).entries[j + 1];
        ApplyItemsUntouched(t[item.productId := p], items[1..], commitOks[1..], id);
      }
    }
  }

  /** Entry `k` is the last one listed for its product. */
  predicate LastFor(entries: seq<StockEntry>, k: int)
    requires 0 <= k < |entries|
  {
    forall j | k < j < |entries| :: entries[j].productId != entries[k].productId
  }

  /** The last entry listed for a product carries the stock the loop left it with. */
  lemma {:induction false} ApplyItemsLastStock(t: Table, items: seq<LineItem>, commitOks: seq<bool>, k: nat)
    requires WellFormed(t) && |commitOks| == |items|
    requires var r := ApplyItems(t, items, commitOks); k < |r.entries| && LastFor(r.entries, k)
    decreases |items|
    ensures var r := ApplyItems(t, items, commitOks);
            r.entries[k].productId in t && r.entries[k].quantity == r.table[r.entries[k].productId].stock
  {
    var r := ApplyItems(t, items, commitOks);
    var item := items[0];
    if item.productId !in t {
      assert r == ApplyItems(t, items[1..], commitOks[1..]);
      ApplyItemsLastStock(t, items[1..], commitOks[1..], k);
    } else {
      var p := t[item.productId].(stock := t[item.productId].stock - item.quantity);
      var t' := t[item.productId := p];
      StockUpdateWellFormed(t, item.productId, p.stock);
      var rest := ApplyItems(t', items[1..], commitOks[1..]);
      assert forall j | 0 <= j < |rest.entries| :: rest.entries[j] == r.entries[j + 1];
      if k == 0 {
        ApplyItemsUntouched(t', items[1..], commitOks[1..], p.id);
      } else {
        assert LastFor(rest.entries, k - 1);
        ApplyItemsLastStock(t', items[1..], commitOks[1..], k - 1);
      }
    }
  }

  /**
   * For a loop that ran to the end, the last entry listed for a product is its starting stock less
   * everything ordered of it. Earlier entries for the same product carry the stock after their own
   * item (`ApplyItemsApply`, `ApplyItemsSplit`).
   */
  lemma ApplyItemsLastEntry(t: Table, items: seq<LineItem>, commitOks: seq<bool>, k: nat)
    requires WellFormed(t) && |commitOks| == |items|
    requires var r := ApplyItems(t, items, commitOks); k < |r.entries| && LastFor(r.entries, k) && !r.failed
    ensures var r := ApplyItems(t, items, commitOks);
            r.entries[k].productId in t
            && r.entries[k].quantity == t[r.entries[k].productId].stock - Ordered(items, r.entries[k].productId)
  {
    ApplyItemsLastStock(t, items, commitOks, k);
    ApplyItemsStock(t, items, commitOks);
  }

  /**
   * Items are handled strictly in list order: the loop over `a + b` is the loop over `a`, and,
   * unless a commit in `a` raised, the loop over `b` from the table `a` left behind. So whatever
   * `a` committed stays committed when a later item fails.
   */
  lemma {:induction false} ApplyItemsSplit(t: Table, a: seq<LineItem>, b: seq<LineItem>, okA: seq<bool>, okB: seq<bool>)
    requires |okA| == |a| && |okB| == |b|
    decreases |a|
    ensures var ra := ApplyItems(t, a, okA);
            ApplyItems(t, a + b, okA + okB) ==
              if ra.failed then ra else Then(ra.steps, ra.entries, ApplyItems(ra.table, b, okB))
  {
    if a == [] {
      assert a + b == b && okA + okB == okB;
      var rb := ApplyItems(t, b, okB);
      assert [] + rb.steps == rb.steps && [] + rb.entries == rb.entries;
    } else {
      assert (a + b)[0] == a[0] && (okA + okB)[0] == okA[0];
      assert (a + b)[1..] == a[1..] + b && (okA + okB)[1..] == okA[1..] + okB;
      var item := a[0];
      if item.productId !in t {
        ApplyItemsSplit(t, a[1..], b, okA[1..], okB);
      } else if okA[0] {
        var p := t[item.productId].(stock := t[item.productId].stock - item.quantity);
        var t' := t[item.productId := p];
        ApplyItemsSplit(t', a[1..], b, okA[1..], okB);
        var ra' := ApplyItems(t', a[1..], okA[1..]);
        if !ra'.failed {
          ThenThen([Committed], [StockEntry(p.id, p.stock)], ra'.steps, ra'.entries, ApplyItems(ra'.table, b, okB));
        }
      }
    }
  }

  // Concrete runs of the handler on an `order.placed` message; the products differ only in id, sku and stock.

  function Row(id: int, sku: string, stock: int): (p: Product) {
    Product(id, sku, "", 1.0, stock, "parts", sku)
  }

  /** Stock can go below zero: 2 in stock, 5 ordered, and the published entry says -3. */
  lemma NegativeStockExample()
    ensures var t := map[1 := Row(1, "A", 2)];
            var r := OrderPlacedOutcome(t, [LineItem(1, 5)], [true], true);
            r.table[1].stock == -3 && Events(r.steps) == [BatchEvent([StockEntry(1, -3)])]
  {
    var t := map[1 := Row(1, "A", 2)];
    var items := [LineItem(1, 5)];
    assert items[1..] == [];
    var b := ApplyItems(t, items, [true]);
    assert b == BatchOutcome(t[1 := Row(1, "A", -3)], [Committed], [StockEntry(1, -3)], false);
  }

  /** An item that drives its stock below zero is applied like any other: three items give three entries. */
  lemma NoSkipOnNegativeExample()
    ensures var t := map[1 := Row(1, "A", 10), 2 := Row(2, "B", 1), 3 := Row(3, "C", 10)];
            var b := ApplyItems(t, [LineItem(1, 1), LineItem(2, 5), LineItem(3, 1)], [true, true, true]);
            b.entries == [StockEntry(1, 9), StockEntry(2, -4), StockEntry(3, 9)] && !b.failed
  {
    var t := map[1 := Row(1, "A", 10), 2 := Row(2, "B", 1), 3 := Row(3, "C", 10)];
    var t1 := t[1 := Row(1, "A", 9)];
    var t2 := t1[2 := Row(2, "B", -4)];
    var items := [LineItem(1, 1), LineItem(2, 5), LineItem(3, 1)];
    assert items[1..] == [LineItem(2, 5), LineItem(3, 1)] && items[1..][1..] == [LineItem(3, 1)];
    assert [true, true, true][1..] == [true, true] && [true, true][1..] == [true];
    assert ApplyItems(t2, [LineItem(3, 1)], [true]).entries == [StockEntry(3, 9)];
    assert ApplyItems(t1, items[1..], [true, true]).entries == [StockEntry(2, -4), StockEntry(3, 9)];
  }

  /** An unknown id in the middle of the list is passed over and the items after it are still applied. */
  lemma UnknownIdExample()
    ensures var t := map[1 := Row(1, "A", 10), 2 := Row(2, "B", 4)];
            var b := ApplyItems(t, [LineItem(1, 1), LineItem(9, 1), LineItem(2, 1)], [true, true, true]);
            b.entries == [StockEntry(1, 9), StockEntry(2, 3)] && !b.failed
  {
  }

  /** A product listed twice is decremented twice, and each entry carries the stock after its own item. */
  lemma RepeatedIdExample()
    ensures var t := map[1 := Row(1, "A", 10)];
            var b := ApplyItems(t, [LineItem(1, 2), LineItem(1, 3)], [true, true]);
            b.entries == [StockEntry(1, 8), StockEntry(1, 5)] && b.table[1].stock == 5
  {
  }

  /** A commit that raises on the second item: the first item stays committed and nothing is published. */
  lemma FailedCommitExample()
    ensures var t := map[1 := Row(1, "A", 10), 2 := Row(2, "B", 4)];
            var r := OrderPlacedOutcome(t, [LineItem(1, 1), LineItem(2, 1)], [true, false], true);
            r.table == t[1 := Row(1, "A", 9)] && r.steps == [Committed, CommitFailed] && Events(r.steps) == []
  {
  }

  /** An empty item list still publishes, once, an empty list. */
  lemma EmptyOrderExample(t: Table)
    requires WellFormed(t)
    ensures var r := OrderPlacedOutcome(t, [], [], true);
            r.table == t && r.steps == [Published(BatchEvent([]))]
  {
  }

  /** One turn of the loop: look the product up, decrement its stock in the session, commit. */
  method ApplyLineItem(db: Database, item: LineItem, commitOk: bool) returns (entry: Option<StockEntry>, raised: bool)
    requires db.AtRest()
    modifies db
    ensures db.Valid() && db.nextId == old(db.nextId)
    ensures !raised ==> db.AtRest()
    ensures item.productId !in old(db.committed) ==>
              entry.None? && !raised && db.committed == old(db.committed) && db.trace == old(db.trace)
    ensures item.productId in old(db.committed) ==>
              var p := old(db.committed)[item.productId].(stock := old(db.committed)[item.productId].stock - item.quantity);
              && raised == !commitOk
              && db.committed == (if commitOk then old(db.committed)[item.productId := p] else old(db.committed))
              && db.trace == old(db.trace) + [if commitOk then Committed else CommitFailed]
              && entry == (if commitOk then Some(StockEntry(p.id, p.stock)) else None)
              && (raised ==> db.pending == old(db.committed)[item.productId := p] && !db.nullRow)
  {
    var found := db.Get(item.productId);
    if found.None? {
      return None, false;
    }
    var product := found.value.(stock := found.value.stock - item.quantity);
    StockUpdateWellFormed(db.committed, item.productId, product.stock);
    db.Stage(product);
    var done := db.Commit(commitOk);
    if !done {
      return None, true;
    }
    entry, raised := Some(StockEntry(product.id, product.stock)), false;
  }

  /** How the handler's steps are assembled from the loop's: one publish attempt unless a commit raised. */
  lemma OrderPlacedSteps(t: Table, items: seq<LineItem>, commitOks: seq<bool>, publishOk: bool)
    requires WellFormed(t) && |commitOks| == |items|
    ensures var b := ApplyItems(t, items, commitOks);
            var r := OrderPlacedOutcome(t, items, commitOks, publishOk);
            && r.table == b.table
            && r.steps == b.steps + (if b.failed then []
                                     else [if publishOk then Published(BatchEvent(b.entries))
                                           else PublishFailed(BatchEvent(b.entries))])
  {
  }

  /** One turn of the loop together with its account against `ApplyItems`: `goal` is the outcome
      of the whole loop, `steps` and `entries` what the turns before this one produced. */
  /** The session still holds the uncommitted decrement of `item`'s stored product; nothing is NULL. */
  ghost predicate Staged(db: Database, item: LineItem)
    reads db
  {
    && item.productId in db.committed && !db.nullRow
    && var q := db.committed[item.productId];
       db.pending == db.committed[item.productId := q.(stock := q.stock - item.quantity)]
  }

  method Turn(db: Database, items: seq<LineItem>, commitOks: seq<bool>, i: nat,
              entries: seq<StockEntry>, ghost base: seq<Step>, ghost steps: seq<Step>, ghost goal: BatchOutcome)
    returns (entries': seq<StockEntry>, ghost steps': seq<Step>, raised: bool)
    requires i < |items| && |commitOks| == |items| && db.AtRest()
    requires db.trace == base + steps
    requires goal == Then(steps, entries, ApplyItems(db.committed, items[i..], commitOks[i..]))
    modifies db
    ensures db.Valid() && db.nextId == old(db.nextId)
    ensures db.trace == base + steps'
    ensures !raised ==> db.AtRest() && goal == Then(steps', entries', ApplyItems(db.committed, items[i + 1..], commitOks[i + 1..]))
    ensures raised ==> goal == BatchOutcome(db.committed, steps', entries', true)
    ensures raised ==> Staged(db, items[i])
  {
    ghost var t := db.committed;
    var entry;
    entry, raised := ApplyLineItem(db, items[i], commitOks[i]);
    if raised {
      assert items[i].productId in t && !commitOks[i] && db.committed == t;
      assert Staged(db, items[i]);
      ApplyItemsApply(t, items, commitOks, i, t[items[i].productId].(stock := t[items[i].productId].stock - items[i].quantity));
      steps' := steps + [CommitFailed];
      entries' := entries;
      assert entries' == entries + [];
    } else if entry.Some? {
      var p := t[items[i].productId].(stock := t[items[i].productId].stock - items[i].quantity);
      assert items[i].productId in t && commitOks[i];
      ApplyItemsApply(t, items, commitOks, i, p);
      assert db.committed == t[p.id := p] && entry.value == StockEntry(p.id, p.stock);
      ThenThen(steps, entries, [Committed], [entry.value], ApplyItems(db.committed, items[i + 1..], commitOks[i + 1..]));
      steps' := steps + [Committed];
      entries' := entries + [entry.value];
    } else {
      assert items[i].productId !in t && db.committed == t;
      ApplyItemsSkip(t, items, commitOks, i);
      steps', entries' := steps, entries;
    }
  }

  /** The `for item in products` loop against the session; `raised` reports a commit that raised. */
  method ProcessItems(db: Database, items: seq<LineItem>, commitOks: seq<bool>)
    returns (eventData: seq<StockEntry>, raised: bool)
    requires db.AtRest() && |commitOks| == |items|
    modifies db
    ensures db.Valid() && db.nextId == old(db.nextId) && (!raised ==> db.AtRest())
    ensures var b := ApplyItems(old(db.committed), items, commitOks);
            && db.committed == b.table && db.trace == old(db.trace) + b.steps
            && eventData == b.entries && raised == b.failed
    ensures raised ==> exists k | 0 <= k < |items| :: Staged(db, items[k])
  {
    eventData, raised := [], false;
    ghost var goal := ApplyItems(db.committed, items, commitOks);
    ghost var steps: seq<Step> := [];
    var i := 0;
    while i < |items|
      invariant 0 <= i <= |items|
      invariant db.AtRest() && db.nextId == old(db.nextId)
      invariant db.trace == old(db.trace) + steps
      invariant goal == Then(steps, eventData, ApplyItems(db.committed, items[i..], commitOks[i..]))
    {
      eventData, steps, raised := Turn(db, items, commitOks, i, eventData, old(db.trace), steps, goal);
      if raised {
        return;
      }
      i := i + 1;
    }
    assert items[i..] == [] && commitOks[i..] == [];
    assert eventData + [] == eventData && steps + [] == steps;
  }

  method UpdateInventoryOnOrderPlaced(db: Database, order: OrderPlaced, commitOks: seq<bool>, publishOk: bool)
    requires db.AtRest() && |commitOks| == |order.items|
    modifies db
    ensures db.AtRest() && db.nextId == old(db.nextId)
    ensures var o := OrderPlacedOutcome(old(db.committed), order.items, commitOks, publishOk);
            db.committed == o.table && db.trace == old(db.trace) + o.steps
  {
    OrderPlacedSteps(db.committed, order.items, commitOks, publishOk);
    ghost var b := ApplyItems(db.committed, order.items, commitOks);
    ghost var trace0 := db.trace;
    var eventData, raised := ProcessItems(db, order.items, commitOks);
    assert db.committed == b.table && db.trace == trace0 + b.steps && eventData == b.entries && raised == b.failed;
    if !raised {
      var sent := db.Publish(BatchEvent(eventData), publishOk);
    }
    db.CloseSession();
  }

  /** `on_message_received`: only the `order.placed` routing key reaches the handler. */
  method OnMessageReceived(db: Database, routingKey: string, order: OrderPlaced, commitOks: seq<bool>, publishOk: bool)
    requires db.AtRest() && |commitOks| == |order.items|
    modifies db
    ensures db.AtRest() && db.nextId == old(db.nextId)
    ensures routingKey == OrderPlacedKey ==>
              var o := OrderPlacedOutcome(old(db.committed), order.items, commitOks, publishOk);
              db.committed == o.table && db.trace == old(db.trace) + o.steps
    ensures routingKey != OrderPlacedKey ==> db.committed == old(db.committed) && db.trace == old(db.trace)
  {
    if routingKey == OrderPlacedKey {
      UpdateInventoryOnOrderPlaced(db, order, commitOks, publishOk);
    }
  }
}
