/** The shopping-cart entity as values: its cart lines, commands and events,
    the three command handlers (which decide, without touching the cart,
    whether a command fails or emits an event) and the two event handlers
    (the fold steps that turn one event into the next cart). */
module ShoppingCart {

  datatype Option<T> = None | Some(value: T)

  /** One line of the cart. */
  datatype Item = Item(productId: string, name: string, quantity: int)

  /** The entity state: the cart's lines, in the order their products were first added. */
  type Cart = seq<Item>

  /** The requests the entity serves; they are never persisted. */
  datatype Command =
    | AddItem(productId: string, name: string, quantity: int)
    | RemoveItem(productId: string)
    | GetCart

  /** The durable facts the entity records. */
  datatype Event =
    | ItemAdded(item: Item)
    | ItemRemoved(productId: string)

  /** A successful handler's return value: the empty message `{}` or the whole cart. */
  datatype Reply = Empty | CartReply(items: Cart)

  /** What one handler invocation amounts to: `ctx.fail(reason)`,
      `ctx.emit(event)` followed by a reply, or a reply alone. */
  datatype Outcome =
    | Fail(reason: string)
    | Emit(event: Event, reply: Reply)
    | Respond(reply: Reply)

  /** Some line of the cart has this product id. */
  predicate Lists(cart: Cart, productId: string)
  {
    exists i :: 0 <= i < |cart| && cart[i].productId == productId
  }

  /** Product ids are pairwise distinct. */
  predicate Distinct(cart: Cart)
  {
    forall i, j :: 0 <= i < j < |cart| ==> cart[i].productId != cart[j].productId
  }

  /** Every line holds at least one unit. */
  predicate Positive(cart: Cart)
  {
    forall i :: 0 <= i < |cart| ==> cart[i].quantity >= 1
  }

  /** The state every cart reachable through accepted commands is in. */
  predicate Valid(cart: Cart)
  {
    Distinct(cart) && Positive(cart)
  }

  /** An event that an accepted command can emit: an addition carries at least one unit. */
  predicate WellFormed(e: Event)
  {
    e.ItemAdded? ==> e.item.quantity >= 1
  }

  /** The state a fresh entity starts from; the entity id is ignored. */
  function Initial(entityId: string): (cart: Cart)
    ensures forall p :: !Lists(cart, p)
    ensures Valid(cart)
  {
    []
  }

  /** Position of the first line with this product id, as `Array.prototype.find` locates it. */
  function Find(cart: Cart, productId: string): (r: Option<nat>)
    ensures r.Some? <==> Lists(cart, productId)
    ensures r.Some? ==> r.value < |cart| && cart[r.value].productId == productId
    ensures r.Some? ==> forall j :: 0 <= j < r.value ==> cart[j].productId != productId
  {
    if cart == [] then None
    else if cart[0].productId == productId then Some(0)
    else
      match Find(cart[1..], productId)
      case None =>
        assert forall i :: 1 <= i < |cart| ==> cart[i] == cart[1..][i - 1];
        None
      case Some(i) => Some(i + 1)
  }

  /** The quantity the cart holds of a product: that of its first line, or 0 when it has none. */
  function QuantityOf(cart: Cart, productId: string): int
  {
    match Find(cart, productId)
    case Some(i) => cart[i].quantity
    case None => 0
  }

  // ---------------------------------------------------------------------------
  // Command handlers

  /** Handler for AddItem: a quantity below one is refused, anything else becomes one ItemAdded. */
  function DecideAddItem(productId: string, name: string, quantity: int): (o: Outcome)
    ensures o.Fail? <==> quantity < 1
    ensures o.Fail? ==> o.reason == "Cannot add negative quantity to item " + productId
    ensures !o.Fail? ==> o == Emit(ItemAdded(Item(productId, name, quantity)), Empty)
  {
    if quantity < 1 then
      Fail("Cannot add negative quantity to item " + productId)
    else
      Emit(ItemAdded(Item(productId, name, quantity)), Empty)
  }

  /** Handler for RemoveItem: refused unless some line has the product id. */
  function DecideRemoveItem(cart: Cart, productId: string): (o: Outcome)
    ensures o.Fail? <==> !Lists(cart, productId)
    ensures o.Fail? ==> o.reason == "Item " + productId + " not in cart"
    ensures !o.Fail? ==> o == Emit(ItemRemoved(productId), Empty)
  {
    match Find(cart, productId)
    case None => Fail("Item " + productId + " not in cart")
    case Some(_) => Emit(ItemRemoved(productId), Empty)
  }

  /** Handler for GetCart: the cart as it is. */
  function DecideGetCart(cart: Cart): (o: Outcome)
    ensures o.Respond? && o.reply == CartReply(cart)
  {
    Respond(CartReply(cart))
  }

  /** The command handler table: one handler per command name. */
  function Decide(cart: Cart, cmd: Command): (o: Outcome)
    ensures o.Respond? <==> cmd.GetCart?
    ensures o.Emit? ==> WellFormed(o.event) && o.reply == Empty
    ensures o.Emit? && o.event.ItemRemoved? ==> Lists(cart, o.event.productId)
  {
    match cmd
    case AddItem(productId, name, quantity) => DecideAddItem(productId, name, quantity)
    case RemoveItem(productId) => DecideRemoveItem(cart, productId)
    case GetCart => DecideGetCart(cart)
  }

  // ---------------------------------------------------------------------------
  // Event handlers

  /** Handler for ItemAdded: the first line with the product id has its quantity
      increased; if there is none, the event's item is appended. */
  function ApplyItemAdded(cart: Cart, item: Item): (r: Cart)
    ensures Lists(cart, item.productId) ==> |r| == |cart|
    ensures !Lists(cart, item.productId) ==> r == cart + [item]
    ensures forall j :: 0 <= j < |cart| ==> r[j].productId == cart[j].productId && r[j].name == cart[j].name
    ensures forall j :: 0 <= j < |cart| && cart[j].productId != item.productId ==> r[j] == cart[j]
    ensures forall p :: Lists(r, p) <==> Lists(cart, p) || p == item.productId
  {
    match Find(cart, item.productId)
    case Some(i) => cart[i := cart[i].(quantity := cart[i].quantity + item.quantity)]
    case None =>
      var r := cart + [item];
      assert forall j :: 0 <= j < |cart| ==> r[j] == cart[j];
      assert r[|cart|] == item;
      r
  }

  /** Handler for ItemRemoved: every line with the product id is dropped. */
  function ApplyItemRemoved(cart: Cart, productId: string): (r: Cart)
    ensures !Lists(r, productId)
    ensures forall x :: x in r <==> x in cart && x.productId != productId
    ensures forall p :: p != productId ==> (Lists(r, p) <==> Lists(cart, p))
    ensures !Lists(cart, productId) ==> r == cart
    ensures |r| <= |cart|
  {
    if cart == [] then []
    else
      var rest := ApplyItemRemoved(cart[1..], productId);
      assert forall i :: 1 <= i < |cart| ==> cart[i] == cart[1..][i - 1];
      if cart[0].productId == productId then rest else [cart[0]] + rest
  }

  /** The event handler table: one handler per event type. */
  function Apply(cart: Cart, e: Event): (r: Cart)
    ensures e.ItemAdded? ==> |cart| <= |r| <= |cart| + 1
    ensures e.ItemRemoved? ==> |r| <= |cart|
    ensures forall p :: Lists(r, p) <==>
      if e.ItemAdded? then Lists(cart, p) || p == e.item.productId
      else Lists(cart, p) && p != e.productId
  {
    match e
    case ItemAdded(item) => ApplyItemAdded(cart, item)
    case ItemRemoved(productId) => ApplyItemRemoved(cart, productId)
  }

  // ---------------------------------------------------------------------------
  // Properties of the fold steps

  /** In a cart with distinct ids, adding to a listed product changes exactly that line's quantity. */
  lemma AddedToListedLine(cart: Cart, i: nat, item: Item)
    requires Distinct(cart)
    requires i < |cart| && cart[i].productId == item.productId
    ensures ApplyItemAdded(cart, item) == cart[i := cart[i].(quantity := cart[i].quantity + item.quantity)]
  {
    assert Find(cart, item.productId) == Some(i);
  }

  /** Adding changes the quantity of the added product by the event's quantity and no other. */
  lemma QuantityAfterAdded(cart: Cart, item: Item, p: string)
    ensures QuantityOf(ApplyItemAdded(cart, item), p)
         == QuantityOf(cart, p) + (if p == item.productId then item.quantity else 0)
  {
    var r := ApplyItemAdded(cart, item);
    if Lists(cart, item.productId) {
      SameIdsSameFind(cart, r, p);
    } else {
      FindAppend(cart, item, p);
    }
  }

  /** Two carts whose lines carry the same product ids, position by position, agree on Find. */
  lemma {:induction false} SameIdsSameFind(a: Cart, b: Cart, p: string)
    requires |a| == |b|
    requires forall j :: 0 <= j < |a| ==> a[j].productId == b[j].productId
    ensures Find(a, p) == Find(b, p)
  {
    if a != [] && a[0].productId != p {
      assert forall j :: 0 <= j < |a[1..]| ==> a[1..][j] == a[j + 1] && b[1..][j] == b[j + 1];
      SameIdsSameFind(a[1..], b[1..], p);
    }
  }

  /** Find on a cart with one line appended: the earlier lines win. */
  lemma {:induction false} FindAppend(a: Cart, x: Item, p: string)
    ensures Find(a + [x], p)
         == if Lists(a, p) then Find(a, p) else if x.productId == p then Some(|a|) else None
  {
    if a != [] && a[0].productId != p {
      assert (a + [x])[1..] == a[1..] + [x];
      FindAppend(a[1..], x, p);
    }
  }

  /** The removal filter distributes over concatenation: it keeps the lines' relative order. */
  lemma {:induction false} RemovedDistributes(a: Cart, b: Cart, productId: string)
    ensures ApplyItemRemoved(a + b, productId) == ApplyItemRemoved(a, productId) + ApplyItemRemoved(b, productId)
  {
    if a == [] {
      assert a + b == b;
    } else {
      assert (a + b)[1..] == a[1..] + b;
      RemovedDistributes(a[1..], b, productId);
    }
  }

  /** In a cart with distinct ids, removing a listed product drops exactly its line and keeps the order. */
  lemma RemovedListedLine(cart: Cart, i: nat)
    requires Distinct(cart)
    requires i < |cart|
    ensures ApplyItemRemoved(cart, cart[i].productId) == cart[..i] + cart[i + 1..]
  {
    UnlistedAround(cart, i);
    SplitAt(cart, i);
    RemovedBetween(cart[..i], cart[i], cart[i + 1..]);
  }

  /** With distinct ids, the product of line i appears neither before nor after it. */
  lemma UnlistedAround(cart: Cart, i: nat)
    requires Distinct(cart)
    requires i < |cart|
    ensures !Lists(cart[..i], cart[i].productId) && !Lists(cart[i + 1..], cart[i].productId)
  {
    var p := cart[i].productId;
    forall j | 0 <= j < i ensures cart[..i][j].productId != p {
      assert cart[..i][j] == cart[j];
    }
    var post := cart[i + 1..];
    forall j | 0 <= j < |post| ensures post[j].productId != p {
      assert post[j] == cart[i + 1 + j];
    }
  }

  lemma SplitAt(cart: Cart, i: nat)
    requires i < |cart|
    ensures cart == cart[..i] + [cart[i]] + cart[i + 1..]
  {
    assert cart[i..] == [cart[i]] + cart[i + 1..];
    assert cart == cart[..i] + cart[i..];
  }

  /** Removing the product of a line that occurs nowhere else drops just that line. */
  lemma RemovedBetween(pre: Cart, x: Item, post: Cart)
    requires !Lists(pre, x.productId) && !Lists(post, x.productId)
    ensures ApplyItemRemoved(pre + [x] + post, x.productId) == pre + post
  {
    var p := x.productId;
    assert ApplyItemRemoved([x], p) == [] by {
      assert [x][1..] == [];
    }
    calc {
      ApplyItemRemoved(pre + [x] + post, p);
      { RemovedDistributes(pre + [x], post, p); }
      ApplyItemRemoved(pre + [x], p) + ApplyItemRemoved(post, p);
      { RemovedDistributes(pre, [x], p); }
      ApplyItemRemoved(pre, p) + ApplyItemRemoved([x], p) + ApplyItemRemoved(post, p);
      pre + [] + post;
      { assert pre + [] == pre; }
      pre + post;
    }
  }

  /** Removing the same product twice is the same as removing it once. */
  lemma RemovedIdempotent(cart: Cart, productId: string)
    ensures ApplyItemRemoved(ApplyItemRemoved(cart, productId), productId) == ApplyItemRemoved(cart, productId)
  {
  }

  /** Removing a product zeroes its quantity and leaves every other product's quantity unchanged. */
  lemma {:induction false} QuantityAfterRemoved(cart: Cart, productId: string, p: string)
    ensures QuantityOf(ApplyItemRemoved(cart, productId), p) == if p == productId then 0 else QuantityOf(cart, p)
  {
    if cart != [] && p != productId {
      var rest := ApplyItemRemoved(cart[1..], productId);
      QuantityAfterRemoved(cart[1..], productId, p);
      if cart[0].productId == p {
        assert Find(cart, p) == Some(0);
        assert Find([cart[0]] + rest, p) == Some(0);
      } else {
        FindSkipsHead(cart, p);
        if cart[0].productId != productId {
          assert ([cart[0]] + rest)[1..] == rest;
          FindSkipsHead([cart[0]] + rest, p);
        }
      }
    }
  }

  /** When the first line does not have the product id, the quantity is found in the rest. */
  lemma FindSkipsHead(cart: Cart, p: string)
    requires cart != [] && cart[0].productId != p
    ensures QuantityOf(cart, p) == QuantityOf(cart[1..], p)
  {
  }

  /** Both fold steps keep product ids pairwise distinct. */
  lemma {:induction false} ApplyKeepsDistinct(cart: Cart, e: Event)
    requires Distinct(cart)
    ensures Distinct(Apply(cart, e))
  {
    match e
    case ItemAdded(item) =>
    case ItemRemoved(productId) => RemovedKeepsDistinct(cart, productId);
  }

  lemma {:induction false} RemovedKeepsDistinct(cart: Cart, productId: string)
    requires Distinct(cart)
    ensures Distinct(ApplyItemRemoved(cart, productId))
  {
    if cart != [] {
      var rest := ApplyItemRemoved(cart[1..], productId);
      assert Distinct(cart[1..]) by {
        forall i, j | 0 <= i < j < |cart[1..]| ensures cart[1..][i].productId != cart[1..][j].productId {
          assert cart[1..][i] == cart[i + 1] && cart[1..][j] == cart[j + 1];
        }
      }
      RemovedKeepsDistinct(cart[1..], productId);
      if cart[0].productId != productId {
        assert !Lists(cart[1..], cart[0].productId) by {
          forall j | 0 <= j < |cart[1..]| ensures cart[1..][j].productId != cart[0].productId {
            assert cart[1..][j] == cart[j + 1];
          }
        }
        assert !Lists(rest, cart[0].productId);
        var r := [cart[0]] + rest;
        forall i, j | 0 <= i < j < |r| ensures r[i].productId != r[j].productId {
          if i == 0 {
            assert r[j] == rest[j - 1];
          } else {
            assert r[i] == rest[i - 1] && r[j] == rest[j - 1];
          }
        }
      }
    }
  }

  /** A well-formed event keeps every quantity at one or more. */
  lemma ApplyKeepsPositive(cart: Cart, e: Event)
    requires Positive(cart) && WellFormed(e)
    ensures Positive(Apply(cart, e))
  {
    match e
    case ItemAdded(item) =>
      var r := ApplyItemAdded(cart, item);
      forall j | 0 <= j < |r| ensures r[j].quantity >= 1 {
        if j < |cart| && cart[j].productId == item.productId {
          assert r[j].quantity == cart[j].quantity + item.quantity || r[j] == cart[j];
        }
      }
    case ItemRemoved(productId) =>
      var r := ApplyItemRemoved(cart, productId);
      forall j | 0 <= j < |r| ensures r[j].quantity >= 1 {
        assert r[j] in cart;
      }
  }
}
