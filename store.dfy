/**
 * The database session and the broker as the code sees them.
 *
 * `committed` is what the database holds; `pending` is the session's view,
 * which the code mutates in place and which `Commit` makes durable or
 * `Rollback` discards. Commit is where the database enforces its constraints:
 * a NULL in a NOT NULL column, a duplicate primary key, name or sku makes it
 * fail even when the connection is fine. `trace` is an append-only log of the
 * steps taken against the database and the broker. Whether a commit or a
 * publish goes through is an oracle argument `ok`.
 */
module Store {
  import opened Wrappers
  import opened Models
  import opened Broker

  class Database {
    var committed: Table
    var pending: Table
    /** A staged insert has a NULL in a NOT NULL column; it cannot be flushed. */
    var nullRow: bool
    /** The next value of the primary-key sequence. */
    var nextId: int
    var trace: seq<Step>

    ghost predicate Valid()
      reads this
    {
      WellFormed(committed) && Below(committed, nextId) && Below(pending, nextId)
    }

    /** Between requests the session holds no uncommitted change. */
    ghost predicate AtRest()
      reads this
    {
      Valid() && pending == committed && !nullRow
    }

    constructor (rows: Table, nextId: int)
      requires WellFormed(rows) && Below(rows, nextId)
      ensures AtRest()
      ensures committed == rows && this.nextId == nextId && trace == []
    {
      committed, pending, nullRow := rows, rows, false;
      this.nextId := nextId;
      trace := [];
    }

    /** `Product.query.get(id)` / `filter_by(id=id).first()`: the session's row, if any. */
    method Get(id: int) returns (p: Option<Product>)
      ensures p.None? <==> id !in pending
      ensures p.Some? ==> p.value == pending[id]
    {
      p := if id in pending then Some(pending[id]) else None;
    }

    /** `Product.query.filter_by(sku=sku).first()` tested for truth. */
    method SkuExists(sku: string) returns (found: bool)
      ensures found <==> SkuTaken(pending, sku)
    {
      found := exists id | id in pending :: pending[id].sku == sku;
    }

    /** Mutates a row held by the session (`product.stock += ...`); nothing is durable yet. */
    method Stage(p: Product)
      requires Valid() && p.id in pending
      modifies this
      ensures Valid()
      ensures pending == old(pending)[p.id := p]
      ensures committed == old(committed) && nullRow == old(nullRow)
      ensures nextId == old(nextId) && trace == old(trace)
    {
      pending := pending[p.id := p];
    }

    /**
     * `db.session.add(Product(...))`: the row takes the next id of the sequence and is staged as the
     * database will write it (`Written`). A missing value for a NOT NULL column leaves a row that
     * cannot be flushed.
     */
    method Add(name: Option<string>, description: Option<string>, price: Option<real>,
               stock: Option<int>, category: Option<string>, sku: Option<string>)
      returns (id: int)
      requires Valid()
      modifies this
      ensures Valid()
      ensures id == old(nextId) && nextId == old(nextId) + 1
      ensures var complete := name.Some? && description.Some? && price.Some? && stock.Some?
                              && category.Some? && sku.Some?;
              && (complete ==> pending == old(pending)[id := Written(Product(id, name.value, description.value,
                                 price.value, stock.value, category.value, sku.value))]
                               && nullRow == old(nullRow))
              && (!complete ==> pending == old(pending) && nullRow)
      ensures committed == old(committed) && trace == old(trace)
    {
      id := nextId;
      nextId := nextId + 1;
      if name.Some? && description.Some? && price.Some? && stock.Some? && category.Some? && sku.Some? {
        pending := pending[id := Written(Product(id, name.value, description.value, price.value,
                                                 stock.value, category.value, sku.value))];
      } else {
        nullRow := true;
      }
    }

    /** `db.session.commit()`: durable exactly when the connection allows it and no constraint is violated. */
    method Commit(ok: bool) returns (done: bool)
      requires Valid()
      modifies this
      ensures Valid()
      ensures done <==> ok && !old(nullRow) && WellFormed(old(pending))
      ensures committed == (if done then old(pending) else old(committed))
      ensures pending == old(pending) && nullRow == old(nullRow) && nextId == old(nextId)
      ensures trace == old(trace) + [if done then Committed else CommitFailed]
    {
      done := ok && !nullRow && WellFormed(pending);
      if done {
        committed := pending;
        trace := trace + [Committed];
      } else {
        trace := trace + [CommitFailed];
      }
    }

    /** `db.session.rollback()`: the session forgets every uncommitted change. */
    method Rollback()
      requires Valid()
      modifies this
      ensures AtRest()
      ensures committed == old(committed) && nextId == old(nextId)
      ensures trace == old(trace) + [RolledBack]
    {
      pending, nullRow := committed, false;
      trace := trace + [RolledBack];
    }

    /** The session is discarded when the application context ends; the code itself calls nothing. */
    method CloseSession()
      requires Valid()
      modifies this
      ensures AtRest()
      ensures committed == old(committed) && nextId == old(nextId) && trace == old(trace)
    {
      pending, nullRow := committed, false;
    }

    /** `publish_event(...)`: raises unless the broker accepts the message. */
    method Publish(e: Event, ok: bool) returns (sent: bool)
      modifies this
      ensures sent == ok
      ensures trace == old(trace) + [if ok then Published(e) else PublishFailed(e)]
      ensures committed == old(committed) && pending == old(pending)
      ensures nullRow == old(nullRow) && nextId == old(nextId)
    {
      sent := ok;
      trace := trace + [if ok then Published(e) else PublishFailed(e)];
    }
  }
}
