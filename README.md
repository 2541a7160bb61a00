# Shopping cart entity, modelled in Dafny

This project models the shopping-cart entity of the Cloudstate JavaScript
sample, an event-sourced entity. A cart is an ordered list of lines
`{productId, name, quantity}`. The entity does two kinds of work.

- **Command handlers** decide what a request means. `AddItem` refuses a
  quantity below one and otherwise emits one `ItemAdded` event. `RemoveItem`
  refuses a product that is not in the cart and otherwise emits one
  `ItemRemoved` event. `GetCart` returns the cart.
- **Event handlers** fold one stored event into the cart. `ItemAdded` adds
  to the first line with that product id, or appends the event's item.
  `ItemRemoved` drops every line with that product id.

A fresh entity starts from the empty cart.

Files:

- `shopping_cart.dfy`, module `ShoppingCart`: the records, commands, events
  and handler outcomes as datatypes. The three command handlers and the two
  event handlers are pure functions, with lemmas about each fold step. The
  side effects `ctx.fail(reason)` and `ctx.emit(event)` become a returned
  `Outcome`: `Fail(reason)`, `Emit(event, reply)` or `Respond(reply)`.
- `runtime.dfy`, module `Runtime`: how the hosting runtime drives the
  entity. `Step` serves one command: it decides, then folds any emitted event
  into the cart before replying. `Run` serves a sequence of commands.
  `Replay` is recovery: it folds stored events over the initial state. The
  lemmas here cover whole histories: the live cart equals the replayed one,
  product ids stay distinct, quantities stay at one or more, and each
  product's quantity is the sum of its additions since its last removal.
  Five worked scenarios (add once, add twice, add then remove, remove from
  an empty cart, add a negative quantity) are also here.
- `cart_entity.dfy`, module `CartEntity`: the state object as the JavaScript
  event handlers update it in place. `items` is a field. `OnItemAdded`
  finds the line with a loop, then bumps its quantity or pushes the item.
  `OnItemRemoved` rebuilds the list with a filtering loop. Each method is
  proved to leave exactly the cart that the pure fold step computes.

Two points where the source's comments and its code say different things;
the model follows the code:

- The comment at shopping-cart/shoppingcart.js:158 speaks of filtering out
  "the removed item", but the filter at lines 159-161 drops every line with
  that product id, and so does the model. In any cart reached from the
  initial state, ids are distinct (`Runtime.ReplayDistinct`), so at most one
  line is ever dropped.
- The comment at line 74 and the reason text at line 77 speak of negative
  quantities, but the test `quantity < 1` at line 75 also refuses zero. The
  model refuses below one and keeps that reason text.

## Model

| member | source | states |
|---|---|---|
| `ShoppingCart.Initial` | shopping-cart/shoppingcart.js:37 | the initial state lists no product and is valid (distinct ids, positive quantities) |
| `ShoppingCart.Find` | shopping-cart/shoppingcart.js:136-139 | finds a line exactly when some line has the product id; the index found is the first such line |
| `ShoppingCart.DecideAddItem` | shopping-cart/shoppingcart.js:71-93 | fails exactly when quantity < 1, with reason "Cannot add negative quantity to item " + productId; otherwise emits one ItemAdded carrying the command's productId, name and quantity unchanged, and replies `{}` |
| `ShoppingCart.DecideRemoveItem` | shopping-cart/shoppingcart.js:98-119 | fails exactly when no line has the product id, with reason "Item " + productId + " not in cart"; otherwise emits one ItemRemoved for that id and replies `{}` |
| `ShoppingCart.DecideGetCart` | shopping-cart/shoppingcart.js:124-128 | replies with the cart exactly as it is, without emitting or failing |
| `ShoppingCart.Decide` | shopping-cart/shoppingcart.js:54-58 | only GetCart replies without emitting or failing; every emitted event is well formed (an addition carries at least one unit) and replies `{}`; a removal is only emitted for a listed product |
| `ShoppingCart.ApplyItemAdded` | shopping-cart/shoppingcart.js:133-152 | a listed product keeps the length; an unlisted one is appended at the end after all earlier lines; ids and names of existing lines never change; lines of other products are untouched; the products listed afterwards are those listed before plus the added one |
| `ShoppingCart.ApplyItemRemoved` | shopping-cart/shoppingcart.js:157-165 | no line of the product remains; a line is kept exactly when it was present and has another id; other products stay listed; it is a no-op when the product is absent; it never grows the cart |
| `ShoppingCart.Apply` | shopping-cart/shoppingcart.js:61-64 | an ItemAdded event grows the cart by at most one line and lists the added product besides the listed ones; an ItemRemoved event never grows it and unlists exactly that product |
| `ShoppingCart.AddedToListedLine` | shopping-cart/shoppingcart.js:136-142 | with distinct ids, adding to a listed product changes only that line, whose quantity becomes old plus the event's; length and order are kept |
| `ShoppingCart.QuantityAfterAdded` | shopping-cart/shoppingcart.js:141-147 | the added product's quantity grows by the event's quantity; every other product's quantity is unchanged |
| `ShoppingCart.RemovedDistributes` | shopping-cart/shoppingcart.js:159-161 | the removal filter distributes over concatenation, so the kept lines keep their relative order |
| `ShoppingCart.RemovedListedLine` | shopping-cart/shoppingcart.js:159-161 | with distinct ids, removing the product of line i gives the cart without line i, all other lines in their order |
| `ShoppingCart.RemovedIdempotent` | shopping-cart/shoppingcart.js:159-161 | removing a product twice equals removing it once |
| `ShoppingCart.QuantityAfterRemoved` | shopping-cart/shoppingcart.js:157-165 | the removed product's quantity becomes 0; every other product's quantity is unchanged |
| `ShoppingCart.ApplyKeepsDistinct` | shopping-cart/shoppingcart.js:133-165 | both event handlers keep product ids pairwise distinct |
| `ShoppingCart.RemovedKeepsDistinct` | shopping-cart/shoppingcart.js:157-165 | the removal filter keeps product ids pairwise distinct |
| `ShoppingCart.ApplyKeepsPositive` | shopping-cart/shoppingcart.js:136-161 | an event that carries at least one unit, or any removal, keeps every quantity at one or more |
| `Runtime.Step` | shopping-cart/shoppingcart.js:47-66 | the outcome is the handler's decision; a failure or a plain reply leaves the cart as it was; an emitted event is folded in before the reply |
| `Runtime.Run` | shopping-cart/shoppingcart.js:54-58 | one outcome per command, and no more stored events than commands |
| `Runtime.RunEventsAreEmitted` | shopping-cart/shoppingcart.js:71-128 | the stored events are exactly the events of the emitting outcomes, oldest first: a failed command or a GetCart stores nothing, and each accepted command stores its one event |
| `Runtime.AddItemRejected` | shopping-cart/shoppingcart.js:75-77 | AddItem with quantity < 1 fails with its reason, emits nothing and leaves the cart unchanged |
| `Runtime.AddItemAccepted` | shopping-cart/shoppingcart.js:78-91 | AddItem with quantity >= 1 emits ItemAdded with the command's fields, replies `{}`, and raises that product's quantity by the command's quantity, no other |
| `Runtime.RemoveItemRejected` | shopping-cart/shoppingcart.js:102-109 | RemoveItem of an unlisted product fails with its reason, emits nothing and leaves the cart unchanged |
| `Runtime.RemoveItemAccepted` | shopping-cart/shoppingcart.js:110-117 | RemoveItem of a listed product emits ItemRemoved, replies `{}`, and leaves the cart without exactly that line, the others in order and unchanged |
| `Runtime.GetCartReadOnly` | shopping-cart/shoppingcart.js:124-128 | GetCart replies with the cart exactly as it is, emits nothing and changes nothing |
| `Runtime.StepKeepsValid` | shopping-cart/shoppingcart.js:50-66 | serving any command keeps ids distinct and quantities at one or more |
| `Runtime.RunMatchesReplay` | shopping-cart/shoppingcart.js:37-66 | the cart held while serving commands equals the cart recovered by replaying the stored events over the initial state |
| `Runtime.RunEmitsWellFormed` | shopping-cart/shoppingcart.js:75-91 | every stored ItemAdded event carries a quantity of at least one |
| `Runtime.ReplayDistinct` | shopping-cart/shoppingcart.js:133-165 | replaying any history from the initial state gives pairwise distinct product ids |
| `Runtime.ReplayPositive` | shopping-cart/shoppingcart.js:133-165 | replaying events whose additions carry at least one unit keeps every quantity at one or more |
| `Runtime.RunValid` | shopping-cart/shoppingcart.js:71-165 | every cart reached by serving commands is valid |
| `Runtime.ReplayQuantity` | shopping-cart/shoppingcart.js:133-165 | a product's quantity after a history is the sum of its ItemAdded quantities since its last ItemRemoved |
| `Runtime.ReplayListed` | shopping-cart/shoppingcart.js:133-165 | a product is listed after a history exactly when it was added since its last removal |
| `Runtime.ScenarioAddOnce` | shopping-cart/shoppingcart.js:71-93 | AddItem(p1, Widget, 3) from the initial state gives the cart [{p1, Widget, 3}] |
| `Runtime.ScenarioAddTwice` | shopping-cart/shoppingcart.js:136-142 | adding 3 then 2 of p1 gives the single line {p1, Widget, 5} |
| `Runtime.ScenarioAddThenRemove` | shopping-cart/shoppingcart.js:157-165 | adding then removing p1 gives the empty cart |
| `Runtime.ScenarioRemoveFromEmpty` | shopping-cart/shoppingcart.js:108-109 | removing p1 from the empty cart fails with "Item p1 not in cart" and stores nothing |
| `Runtime.ScenarioNegativeQuantity` | shopping-cart/shoppingcart.js:75-77 | adding -1 of p1 fails with "Cannot add negative quantity to item p1" and stores nothing |
| `CartEntity.ShoppingCartEntity.constructor` | shopping-cart/shoppingcart.js:37 | a new state object holds the initial cart |
| `CartEntity.ShoppingCartEntity.FindLine` | shopping-cart/shoppingcart.js:136-139 | finds a line exactly when some line has the product id; the index is that of the first such line |
| `CartEntity.ShoppingCartEntity.OnItemAdded` | shopping-cart/shoppingcart.js:133-152 | the in-place update (bump the found line, else push) leaves exactly the cart the pure ItemAdded step gives |
| `CartEntity.ShoppingCartEntity.OnItemRemoved` | shopping-cart/shoppingcart.js:157-165 | the filtering loop and reassignment leave exactly the cart the pure ItemRemoved step gives |
| `CartEntity.ShoppingCartEntity.OnEvent` | shopping-cart/shoppingcart.js:61-64 | dispatching an event to its handler leaves the cart the fold step gives |
| `CartEntity.ShoppingCartEntity.Handle` | shopping-cart/shoppingcart.js:50-66 | serving a command in place returns the handler's outcome and leaves the state that `Runtime.Step` gives |

## Left out

- Entity registration with the external runtime (shopping-cart/shoppingcart.js:17-28): the schema files, entity type name, `persistenceId`, `snapshotEvery`, `includeDirs` and `serializeFallbackToJson`. Persistence, snapshots, JSON serialization and the wire format live in that runtime, which is not part of this model.
- Behaviour selection (shopping-cart/shoppingcart.js:50-66) always returns the same handler table. It is modelled as fixed dispatch (`Decide`, `Apply`), not as a function of the state.
- `console.log` calls: output only, with no effect on behaviour.
- The `ctx` object as a mutable callback sink: its effect is the returned `Outcome`.
- Object aliasing: `itemAdded` pushes the event's own `item` object into the cart, and `getCart` returns the live cart. The model uses value semantics throughout.
- Quantities are unbounded integers. The 32-bit width of the wire type and JavaScript number arithmetic are not modelled.
- Snapshot-based recovery: `Replay` always starts from the initial state.
- Concurrency between entities and command serialization per entity belong to the runtime.
