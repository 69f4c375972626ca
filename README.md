# Product inventory service, modelled in Dafny

This project models the inventory core of a small product service: a `products` table, two GraphQL
write paths, three read queries, and a message consumer. The two write paths are direct stock
adjustment and product creation. The consumer applies `order.placed` messages to the table and
announces the new stock levels on `inventory.updated`.

Several constraints are enforced by the database when a session commits:
- id is the primary key;
- name and sku are unique;
- every modelled column is NOT NULL;
- name is a `String(256)` column, category and sku are `String(128)` columns. As PostgreSQL does for
  `varchar(n)`, a value longer than its column is cut to the column's width when every character past
  the width is a space, and refused otherwise.

The database session is a pending copy of the committed table. `Commit` makes the pending copy
durable, `Rollback` discards it. What the code does against the broker and the database is recorded
in an append-only log of steps: `Published` and `PublishFailed` for the broker, `Committed`,
`CommitFailed` and `RolledBack` for the database. Whether a given publish or commit goes through is
an oracle argument, so every failure path is covered. A commit's `ok = false` stands for every
reason the database may refuse that the constraints above do not name: a lost connection, a
deadlock, a value out of range for a 32-bit column.

Modules:

- `Models` (`models.dfy`): the `Product` record, the table constraints, and `to_dict` with its inverse.
- `Broker` (`broker.dfy`): topic names, event payloads, the step log, and the two ordering policies.
- `Store` (`store.dfy`): the `Database` class, i.e. the session over the committed table plus the step log.
- `Resolvers` (`resolvers.dfy`): the queries, and the update and create paths.
- `Consumer` (`consumer.dfy`): the batch loop and the routing-key dispatch.

Each write path has two members:

- A pure function from the committed table and the oracles to an outcome (new table, steps taken,
  response). Its postconditions state what the path promises.
- A method that performs the code's own steps against a `Database`. It is proved to end in exactly
  that outcome.

### Behaviour worth noting

The model follows the code in each of these points, though a reader might expect otherwise.

- **Create validation.** The test at app/resolvers.py:63 only effectively checks `sku` and
  `category`. The trailing commas at app/resolvers.py:56-59 make `name`, `description`, `price` and
  `stock` one-element tuples, and those are always truthy. `Resolvers.PassesValidation` states this.
  - A missing name passes validation. It is then refused by the NOT NULL constraint at commit, with
    the generic "Failed to create a product." message (`Resolvers.CreateWithoutName`).
  - Empty strings and zeros are stored as given (`Resolvers.CreateWithBlankFields`).
  - A taken sku and a taken name are both reported with the same generic message, not with an
    error of their own.
- **No lower bound in the consumer.** The consumer has no lower bound on stock (consumer.py:22). An
  item that would drive its stock below zero is not skipped: the code applies it and lists it
  (`Consumer.NegativeStockExample`, `Consumer.NoSkipOnNegativeExample`).
- **Negative stock locks direct adjustment.** A product the consumer drove below zero refuses every
  direct adjustment that leaves it below zero, a change of zero included, with "Insufficient stock
  to complete the operation" (app/resolvers.py:114, `Resolvers.AdjustNegativeStock`).
- **Over-long names can be stored.** A name past 256 characters is not refused when its excess is
  all spaces: the database cuts it and the created product carries the shorter name
  (`Resolvers.CreateTruncatedName`). The same holds for category and sku past 128.
- **Empty orders still publish.** The consumer publishes once after the loop even when nothing was
  applied (`Consumer.EmptyOrderExample`).

## Model

| member | source | states |
|---|---|---|
| Models.Column | app/models.py:12 | what a `String(n)` column stores: a value whose excess past the width is all spaces is cut to exactly the width; a value that already fits is kept; any other value is kept whole and stays over-long |
| Models.Written | app/models.py:12-17 | the row as written: only name, category and sku can change, each to a prefix of itself of exactly its column width, or kept whole when it fits or its excess is not all spaces; it fits its columns exactly when each over-long field has only spaces past its width; a fitting row is written unchanged |
| Models.StockUpdateWellFormed | app/models.py:11-17 | changing only the stock of a stored row keeps the primary-key, column-width, unique-name and unique-sku constraints and the set of ids |
| Models.InsertWellFormed | app/models.py:11-17 | inserting a row under a fresh id keeps the constraints exactly when the row fits its column widths and neither its name nor its sku is already used |
| Models.ToDict | app/models.py:24-33 | `to_dict` has exactly the keys id, name, description, price, stock, category, sku; no timestamp key; reading it back gives the record |
| Models.FromDict | app/models.py:24-33 | the decoder used to state `to_dict`'s contract: a dictionary read back as a record carries all seven keys |
| Models.ToDictInjective | app/models.py:24-33 | distinct records have distinct dictionaries: the projection drops no stored field |
| Store.Database.Get | app/resolvers.py:105 | the session's row under the id, or none exactly when no row has it |
| Store.Database.SkuExists | app/resolvers.py:67 | true exactly when some row in the session has the sku |
| Store.Database.Stage | app/resolvers.py:120 | the in-session row is replaced and nothing is durable or logged |
| Store.Database.Add | app/resolvers.py:70-79 | the new row takes the next sequence value and is staged as the columns store it, over-long space padding cut; a missing field leaves a row that cannot be flushed |
| Store.Database.Commit | app/resolvers.py:80 | durable exactly when the oracle allows and no NOT NULL, column-width or UNIQUE constraint is broken; logs the outcome |
| Store.Database.Rollback | app/resolvers.py:153 | the session's uncommitted changes are dropped; committed rows unchanged; a rollback step is logged |
| Store.Database.CloseSession | consumer.py:11 | the application context ends: uncommitted changes dropped, nothing logged |
| Store.Database.Publish | app/resolvers.py:132 | the publish is logged as sent or failed and touches no table state |
| Resolvers.FetchProducts | app/resolvers.py:17-20 | exactly the stored records |
| Resolvers.FetchProduct | app/resolvers.py:30-39 | none exactly when the id is absent; otherwise the record stored under that id |
| Resolvers.ProductByIds | app/resolvers.py:44-48 | `to_dict` of a stored record is in the result exactly when its id is listed; each result reads back as a stored record with a listed id |
| Resolvers.ErrorText | app/resolvers.py:109-156 | the `errors` string of a failure: a missing product, insufficient stock and a failed publish each report a text of the code's own; a failed commit, exactly, reports none of the code's own |
| Resolvers.Adjust | app/resolvers.py:102-159 | success exactly when the product exists, the new stock is non-negative and publish and commit succeed; on success only that product's stock changes, by the delta, and the returned dict carries it; every failure leaves the table unchanged, ends in a rollback and reports its error; the one event is published before the commit and is published even when the commit then fails; no commit is attempted unless the publish succeeded |
| Resolvers.UpdateProductInventory | app/resolvers.py:102-159 | the step-by-step handler ends with the table, log and response of `Adjust`, with the session at rest |
| Resolvers.Create | app/resolvers.py:55-97 | only sku and category are validated; a taken sku inserts nothing, consumes no id, and its only step is one rollback; the row written is the input with over-long space padding cut from name, category and sku; it is durable exactly when the insert is complete, the written row fits its column widths, its name and sku are free and the commit succeeds; the created event follows the commit; a failed publish leaves the row stored but reports failure |
| Resolvers.Insert | app/resolvers.py:79-97 | from the add on, for a complete row: one id consumed; durable exactly when the row fits, its name and sku are free and the commit succeeds; the created event is sent only after that commit; a failed publish leaves the row stored but reports failure |
| Resolvers.CreateSteps | app/resolvers.py:66-97 | no publish, sent or failed, is attempted unless the row was committed, and it comes right after that commit; once validation passes and the sku is free, exactly one id is consumed |
| Resolvers.HandleCreateProduct | app/resolvers.py:55-97 | the step-by-step handler ends with the table, id sequence, log and result of `Create` |
| Resolvers.InsertProduct | app/resolvers.py:80-97 | the commit, publish and rollbacks against the session end with the table, id sequence, log and result of `Insert`, with the session at rest |
| Resolvers.AdjustExample | app/resolvers.py:114-128 | stock 10 minus 3 gives 7 and the event (1, 7); a further change of -20 is refused and 7 stays |
| Resolvers.AdjustZero | app/resolvers.py:114-141 | on a product with non-negative stock, a change of zero succeeds, leaves the table as it was, and still publishes the unchanged stock |
| Resolvers.AdjustNegativeStock | app/resolvers.py:114-117 | a change that leaves the stock below zero, a change of zero on negative stock included, is refused as insufficient stock, with the table unchanged and no event |
| Resolvers.PassesValidation | app/resolvers.py:56-64 | the test as written, with `name`, `description`, `price` and `stock` bound to one-element tuples, passes exactly when sku and category are present and non-empty |
| Resolvers.ValidationIgnoresTuples | app/resolvers.py:56-63 | name, description, price and stock, bound as one-element tuples, never decide validation |
| Resolvers.CreateWithoutName | app/resolvers.py:56-97 | an input without a name passes validation, consumes an id, and fails at commit with the generic message |
| Resolvers.CreateWithBlankFields | app/resolvers.py:56-63 | empty name and description, zero price and zero stock are accepted and stored |
| Resolvers.CreateTooLongName | app/models.py:12 | a name with a character other than a space past its 256th passes validation, consumes an id, and is refused at commit with the generic message |
| Resolvers.CreateTruncatedName | app/models.py:12 | a name longer than 256 characters whose excess is all spaces is cut to its first 256: the row is stored, returned and announced with the shortened name |
| Consumer.ApplyItems | consumer.py:15-35 | the loop over the items: ids are kept, at most one entry per item, one commit step per entry plus the failed one |
| Consumer.ApplyItemsWellFormed | consumer.py:22-23 | the loop keeps the table's constraints |
| Consumer.ApplyItemsOnlyStock | consumer.py:22 | the loop changes no field but stock |
| Consumer.ApplyItemsSteps | consumer.py:15-35 | the loop publishes nothing, commits once per applied item, and stops at the commit that fails |
| Consumer.ApplyItemsSkip | consumer.py:19-35 | an unknown id is skipped: no change, no entry, and the loop continues |
| Consumer.ApplyItemsApply | consumer.py:19-31 | a stored id is decremented by the quantity and committed; the entry is its id and new stock; a failed commit ends the loop |
| Consumer.ApplyItemsCompletes | consumer.py:15-35 | when every commit succeeds the loop runs to the end |
| Consumer.ApplyItemsStock | consumer.py:15-22 | a completed loop lowers each stored product's stock by exactly the total ordered of it, with no lower bound |
| Consumer.ApplyItemsEntries | consumer.py:13-31 | a completed loop lists one entry per stored item, in item order, repeats kept, unknown ids left out |
| Consumer.ApplyItemsUntouched | consumer.py:21-31 | a product with no entry keeps the stock it started with |
| Consumer.ApplyItemsLastStock | consumer.py:22-31 | the last entry listed for a product carries the stock the loop left it with |
| Consumer.ApplyItemsLastEntry | consumer.py:15-31 | after a completed loop, the last entry listed for a product carries its starting stock less the total ordered of it |
| Consumer.ApplyItemsSplit | consumer.py:15-23 | items are handled in list order; commits made before a failing item stay committed |
| Consumer.OrderPlacedOutcome | consumer.py:9-43 | the handler: the loop's table; exactly one publish, of the loop's entries, after the loop unless a commit raised; no publish earlier; when every commit succeeds, the published list names every found item in order |
| Consumer.OrderPlacedSteps | consumer.py:37-43 | the handler's steps are the loop's, followed by one publish attempt unless a commit raised |
| Consumer.NegativeStockExample | consumer.py:22 | stock 2 minus an order of 5 is committed as -3 and published as such |
| Consumer.NoSkipOnNegativeExample | consumer.py:15-31 | three items, the second driving its stock negative, give three entries |
| Consumer.UnknownIdExample | consumer.py:19-35 | an unknown id between two known ones yields two entries |
| Consumer.RepeatedIdExample | consumer.py:28-31 | a product listed twice gets two entries with successive stock values |
| Consumer.FailedCommitExample | consumer.py:15-43 | a commit that raises on the second item keeps the first committed and publishes nothing |
| Consumer.EmptyOrderExample | consumer.py:37-38 | an empty order still publishes one empty list |
| Consumer.ApplyLineItem | consumer.py:16-31 | one turn against the session: lookup, decrement, commit, and the entry for a successful commit; a raising commit leaves the decrement staged in the session |
| Consumer.Turn | consumer.py:15-35 | one turn of the loop accounts for exactly one step of `ApplyItems`; when its commit raises, the session still holds that item's decrement |
| Consumer.ProcessItems | consumer.py:13-35 | the loop against the session ends with the table, log, entries and raised flag of `ApplyItems`; after a raise the session holds the failing item's uncommitted decrement |
| Consumer.UpdateInventoryOnOrderPlaced | consumer.py:9-43 | the step-by-step handler ends with the table and log of `OrderPlacedOutcome`, with the session at rest |
| Consumer.OnMessageReceived | consumer.py:46-55 | only the `order.placed` key runs the handler; any other key leaves the table and the log unchanged |

## Left out

- GraphQL registration and the `jwt_required` decorator: transport and authentication; app/middleware.py is not part of this model.
- JSON encoding and decoding: events and messages are datatypes. A malformed message body, whatever its routing key, is not modelled: `json.loads` (consumer.py:49) raises out of `on_message_received` before the key is read. A line item without `product_id` or `quantity` would raise inside the handler's `try`.
- Logging and the application context: they have no effect the model could observe. The end of the context is `CloseSession`.
- The broker client: app/rabbitmq.py is not part of this model. Publishing is an oracle with a success flag. The differing argument shapes of the publish calls (app/resolvers.py:89-90 against :132) are not resolved. Every inventory event is taken to go to `inventory.updated`.
- Result order of `products` and `productByIds`: the database's row order is not modelled, so both results are sets.
- Failing reads: the model has no failure path for a read of the table. This covers the exception path of `products` that returns `[]` (app/resolvers.py:19-23), a failure of the lookup in `product` (app/resolvers.py:33), of the sku lookup in `createProduct` (app/resolvers.py:67), of the lookup in `updateProductInventory` (app/resolvers.py:105), and of the lookup in the consumer (consumer.py:19). Each of these can raise when the database does.
- Resolvers.ErrorText: the text for a failed commit is the database driver's message, which the model does not carry (`CommitFailure` has no text).
- Resolvers.Create: the one-element tuples given as `name`, `description`, `price` and `stock` are taken to be stored as their element, as the database driver renders a one-element tuple. A missing value is NULL.
- Column widths follow PostgreSQL, the database config.py:11 connects to. Any other behaviour of `varchar(n)`, such as an explicit cast that truncates silently, is not modelled because the code performs none.
- Price is a `real`: floating-point rounding is not modelled.
- Stock and ids are unbounded integers: the 32-bit width of the `Integer` columns is not modelled. A write that overflows a column falls under a commit with `ok = false`.
- Timestamps: `created_at` and `updated_at` are evaluated at import time and are not part of the record.
- Concurrency and transaction isolation between workers, and redelivery of messages by the broker: the code has no logic of its own for them.
- A failed publish after the consumer loop is swallowed like a failed commit. It is logged as `PublishFailed` and changes nothing else.
