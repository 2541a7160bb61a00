/** The entity's state object as the event handlers update it in place:
    ItemAdded bumps the found line's quantity or pushes a new line, and
    ItemRemoved reassigns the list with the filtered one. Each method is
    proved to leave the state the pure fold step computes. */
module CartEntity {
  import opened ShoppingCart
  import Runtime

  class ShoppingCartEntity {
    /** The `items` field of the state object. */
    var items: Cart

    /** The initial state, `{items: []}`. */
    constructor (entityId: string)
      ensures items == Initial(entityId)
    {
      items := [];
    }

    /** Scan for the first line with the product id, as `items.find` does. */
    method FindLine(productId: string) returns (found: bool, index: nat)
      ensures found <==> Lists(items, productId)
      ensures found ==> index < |items| && items[index].productId == productId
      ensures found ==> forall j :: 0 <= j < index ==> items[j].productId != productId
    {
      index := 0;
      while index < |items|
        invariant index <= |items|
        invariant forall j :: 0 <= j < index ==> items[j].productId != productId
      {
        if items[index].productId == productId {
          return true, index;
        }
        index := index + 1;
      }
      return false, index;
    }

    /** Event handler for ItemAdded, updating the found line or pushing the event's item. */
    method OnItemAdded(item: Item)
      modifies this
      ensures items == ApplyItemAdded(old(items), item)
    {
      var found, i := FindLine(item.productId);
      if found {
        assert Find(items, item.productId) == Some(i);
        items := items[i := items[i].(quantity := items[i].quantity + item.quantity)];
      } else {
        items := items + [item];
      }
    }

    /** Event handler for ItemRemoved, rebuilding the list from the lines it keeps. */
    method OnItemRemoved(productId: string)
      modifies this
      ensures items == ApplyItemRemoved(old(items), productId)
    {
      var lines := items;
      var kept: Cart := [];
      var i := 0;
      while i < |lines|
        invariant i <= |lines|
        invariant kept == ApplyItemRemoved(lines[..i], productId)
      {
        assert lines[..i + 1] == lines[..i] + [lines[i]];
        RemovedDistributes(lines[..i], [lines[i]], productId);
        assert [lines[i]][1..] == [];
        if lines[i].productId != productId {
          kept := kept + [lines[i]];
        }
        i := i + 1;
      }
      assert lines[..i] == lines;
      items := kept;
    }

    /** The event handler table applied to the state object. */
    method OnEvent(e: Event)
      modifies this
      ensures items == Apply(old(items), e)
    {
      match e
      case ItemAdded(item) => OnItemAdded(item);
      case ItemRemoved(productId) => OnItemRemoved(productId);
    }

    /** Serve one command: decide against the current state, and fold an emitted event in before replying. */
    method Handle(cmd: Command) returns (o: Outcome)
      modifies this
      ensures (o, items) == Runtime.Step(old(items), cmd)
    {
      o := Decide(items, cmd);
      if o.Emit? {
        OnEvent(o.event);
      }
    }
  }
}
