/** How the hosting event-sourcing runtime drives the entity: a command is
    decided against the current cart and an emitted event is folded in
    before the reply; recovery folds the stored events over the initial
    state. These functions state the entity's guarantees over whole
    histories. */
module Runtime {
  import opened ShoppingCart

  /** One command served live: the handler's outcome and the cart after it. */
  function Step(cart: Cart, cmd: Command): (r: (Outcome, Cart))
    ensures !r.0.Emit? ==> r.1 == cart
    ensures r.0.Emit? ==> r.1 == Apply(cart, r.0.event)
    ensures r.0 == Decide(cart, cmd)
  {
    var o := Decide(cart, cmd);
    if o.Emit? then (o, Apply(cart, o.event)) else (o, cart)
  }

  /** The events stored, the outcomes returned and the cart reached after serving a sequence of commands. */
  datatype Trace = Trace(events: seq<Event>, outcomes: seq<Outcome>, cart: Cart)

  /** Serve commands one at a time, starting from the initial state. */
  function Run(entityId: string, cmds: seq<Command>): (t: Trace)
    ensures |t.outcomes| == |cmds|
    ensures |t.events| <= |cmds|
    decreases |cmds|
  {
    if cmds == [] then Trace([], [], Initial(entityId))
    else
      var t := Run(entityId, cmds[..|cmds| - 1]);
      var (o, cart) := Step(t.cart, cmds[|cmds| - 1]);
      Trace(t.events + (if o.Emit? then [o.event] else []), t.outcomes + [o], cart)
  }

  /** The events of the emitting outcomes, oldest first. */
  function Emitted(outcomes: seq<Outcome>): seq<Event>
    decreases |outcomes|
  {
    if outcomes == [] then []
    else
      var o := outcomes[|outcomes| - 1];
      Emitted(outcomes[..|outcomes| - 1]) + (if o.Emit? then [o.event] else [])
  }

  /** The stored events are exactly the events the handlers emitted, in order:
      a failed command or a plain reply stores nothing. */
  lemma {:induction false} RunEventsAreEmitted(entityId: string, cmds: seq<Command>)
    ensures Run(entityId, cmds).events == Emitted(Run(entityId, cmds).outcomes)
  {
    if cmds != [] {
      var t := Run(entityId, cmds[..|cmds| - 1]);
      var o := Step(t.cart, cmds[|cmds| - 1]).0;
      RunEventsAreEmitted(entityId, cmds[..|cmds| - 1]);
      assert (t.outcomes + [o])[..|t.outcomes|] == t.outcomes;
    }
  }

  /** Recovery: fold the stored events, oldest first, over the initial state. */
  function Replay(entityId: string, events: seq<Event>): Cart
    decreases |events|
  {
    if events == [] then Initial(entityId)
    else Apply(Replay(entityId, events[..|events| - 1]), events[|events| - 1])
  }

  /** Reference for a product's quantity: the sum of its additions since its last removal. */
  function NetQuantity(events: seq<Event>, productId: string): int
    decreases |events|
  {
    if events == [] then 0
    else
      var prior := NetQuantity(events[..|events| - 1], productId);
      match events[|events| - 1]
      case ItemAdded(item) => if item.productId == productId then prior + item.quantity else prior
      case ItemRemoved(p) => if p == productId then 0 else prior
  }

  /** Reference for a product being listed: it was added since its last removal. */
  function AddedSinceRemoval(events: seq<Event>, productId: string): bool
    decreases |events|
  {
    if events == [] then false
    else
      match events[|events| - 1]
      case ItemAdded(item) => item.productId == productId || AddedSinceRemoval(events[..|events| - 1], productId)
      case ItemRemoved(p) => p != productId && AddedSinceRemoval(events[..|events| - 1], productId)
  }

  lemma ReplayAppend(entityId: string, events: seq<Event>, e: Event)
    ensures Replay(entityId, events + [e]) == Apply(Replay(entityId, events), e)
  {
    assert (events + [e])[..|events|] == events;
  }

  // ---------------------------------------------------------------------------
  // One command

  /** AddItem with a quantity below one is refused with its reason, stores nothing and leaves the cart. */
  lemma AddItemRejected(cart: Cart, productId: string, name: string, quantity: int)
    requires quantity < 1
    ensures Step(cart, AddItem(productId, name, quantity))
         == (Fail("Cannot add negative quantity to item " + productId), cart)
  {
  }

  /** An accepted AddItem stores its item unchanged, replies `{}`, and adds its quantity to that product only. */
  lemma AddItemAccepted(cart: Cart, productId: string, name: string, quantity: int, p: string)
    requires quantity >= 1
    ensures var (o, cart') := Step(cart, AddItem(productId, name, quantity));
      && o == Emit(ItemAdded(Item(productId, name, quantity)), Empty)
      && QuantityOf(cart', p) == QuantityOf(cart, p) + (if p == productId then quantity else 0)
  {
    QuantityAfterAdded(cart, Item(productId, name, quantity), p);
  }

  /** RemoveItem of an unlisted product is refused with its reason, stores nothing and leaves the cart. */
  lemma RemoveItemRejected(cart: Cart, productId: string)
    requires !Lists(cart, productId)
    ensures Step(cart, RemoveItem(productId)) == (Fail("Item " + productId + " not in cart"), cart)
  {
  }

  /** RemoveItem of a listed product stores one ItemRemoved, replies `{}`, drops exactly its line
      and leaves the other lines, in order, with their quantities. */
  lemma RemoveItemAccepted(cart: Cart, i: nat)
    requires Distinct(cart) && i < |cart|
    ensures var (o, cart') := Step(cart, RemoveItem(cart[i].productId));
      && o == Emit(ItemRemoved(cart[i].productId), Empty)
      && cart' == cart[..i] + cart[i + 1..]
  {
    RemovedListedLine(cart, i);
  }

  /** GetCart replies with the cart exactly as it is, stores nothing and changes nothing. */
  lemma GetCartReadOnly(cart: Cart)
    ensures Step(cart, GetCart) == (Respond(CartReply(cart)), cart)
  {
  }

  /** Serving any command keeps the cart valid. */
  lemma StepKeepsValid(cart: Cart, cmd: Command)
    requires Valid(cart)
    ensures Valid(Step(cart, cmd).1)
  {
    var o := Decide(cart, cmd);
    if o.Emit? {
      ApplyKeepsDistinct(cart, o.event);
      ApplyKeepsPositive(cart, o.event);
    }
  }

  // ---------------------------------------------------------------------------
  // Whole histories

  /** The cart held live equals the cart recovered from the stored events. */
  lemma {:induction false} RunMatchesReplay(entityId: string, cmds: seq<Command>)
    ensures Run(entityId, cmds).cart == Replay(entityId, Run(entityId, cmds).events)
  {
    if cmds != [] {
      var prefix := cmds[..|cmds| - 1];
      var t := Run(entityId, prefix);
      RunMatchesReplay(entityId, prefix);
      var o := Step(t.cart, cmds[|cmds| - 1]).0;
      if o.Emit? {
        ReplayAppend(entityId, t.events, o.event);
      } else {
        assert t.events + [] == t.events;
      }
    }
  }

  /** Every event stored while serving commands is one an accepted command may emit. */
  lemma {:induction false} RunEmitsWellFormed(entityId: string, cmds: seq<Command>)
    ensures forall k :: 0 <= k < |Run(entityId, cmds).events| ==> WellFormed(Run(entityId, cmds).events[k])
  {
    if cmds != [] {
      RunEmitsWellFormed(entityId, cmds[..|cmds| - 1]);
    }
  }

  /** Replaying any history, from the empty cart, yields distinct product ids. */
  lemma {:induction false} ReplayDistinct(entityId: string, events: seq<Event>)
    ensures Distinct(Replay(entityId, events))
  {
    if events != [] {
      ReplayDistinct(entityId, events[..|events| - 1]);
      ApplyKeepsDistinct(Replay(entityId, events[..|events| - 1]), events[|events| - 1]);
    }
  }

  /** Replaying well-formed events keeps every quantity at one or more. */
  lemma {:induction false} ReplayPositive(entityId: string, events: seq<Event>)
    requires forall k :: 0 <= k < |events| ==> WellFormed(events[k])
    ensures Positive(Replay(entityId, events))
  {
    if events != [] {
      ReplayPositive(entityId, events[..|events| - 1]);
      ApplyKeepsPositive(Replay(entityId, events[..|events| - 1]), events[|events| - 1]);
    }
  }

  /** Every cart reached by serving commands is valid. */
  lemma RunValid(entityId: string, cmds: seq<Command>)
    ensures Valid(Run(entityId, cmds).cart)
  {
    RunMatchesReplay(entityId, cmds);
    RunEmitsWellFormed(entityId, cmds);
    ReplayDistinct(entityId, Run(entityId, cmds).events);
    ReplayPositive(entityId, Run(entityId, cmds).events);
  }

  /** A product's quantity after a history is the sum of its additions since its last removal. */
  lemma {:induction false} ReplayQuantity(entityId: string, events: seq<Event>, p: string)
    ensures QuantityOf(Replay(entityId, events), p) == NetQuantity(events, p)
  {
    if events != [] {
      var prior := Replay(entityId, events[..|events| - 1]);
      ReplayQuantity(entityId, events[..|events| - 1], p);
      match events[|events| - 1]
      case ItemAdded(item) => QuantityAfterAdded(prior, item, p);
      case ItemRemoved(q) => QuantityAfterRemoved(prior, q, p);
    }
  }

  /** A product is listed after a history exactly when it was added since its last removal. */
  lemma {:induction false} ReplayListed(entityId: string, events: seq<Event>, p: string)
    ensures Lists(Replay(entityId, events), p) <==> AddedSinceRemoval(events, p)
  {
    if events != [] {
      ReplayListed(entityId, events[..|events| - 1], p);
    }
  }

  // ---------------------------------------------------------------------------
  // Worked scenarios

  lemma ScenarioAddOnce()
    ensures Run("cart", [AddItem("p1", "Widget", 3)]).cart == [Item("p1", "Widget", 3)]
  {
    assert [AddItem("p1", "Widget", 3)][..0] == [];
  }

  lemma ScenarioAddTwice()
    ensures Run("cart", [AddItem("p1", "Widget", 3), AddItem("p1", "Widget", 2)]).cart
         == [Item("p1", "Widget", 5)]
  {
    var cmds := [AddItem("p1", "Widget", 3), AddItem("p1", "Widget", 2)];
    assert cmds[..1] == [AddItem("p1", "Widget", 3)];
    ScenarioAddOnce();
    assert Find([Item("p1", "Widget", 3)], "p1") == Some(0);
  }

  lemma ScenarioAddThenRemove()
    ensures Run("cart", [AddItem("p1", "Widget", 3), RemoveItem("p1")]).cart == []
  {
    var cmds := [AddItem("p1", "Widget", 3), RemoveItem("p1")];
    assert cmds[..1] == [AddItem("p1", "Widget", 3)];
    ScenarioAddOnce();
    assert Lists([Item("p1", "Widget", 3)], "p1");
  }

  lemma ScenarioRemoveFromEmpty()
    ensures Run("cart", [RemoveItem("p1")]) == Trace([], [Fail("Item p1 not in cart")], [])
  {
    assert [RemoveItem("p1")][..0] == [];
    assert "Item " + "p1" + " not in cart" == "Item p1 not in cart";
  }

  lemma ScenarioNegativeQuantity()
    ensures Run("cart", [AddItem("p1", "Widget", -1)])
         == Trace([], [Fail("Cannot add negative quantity to item p1")], [])
  {
    assert [AddItem("p1", "Widget", -1)][..0] == [];
    assert "Cannot add negative quantity to item " + "p1" == "Cannot add negative quantity to item p1";
  }
}
