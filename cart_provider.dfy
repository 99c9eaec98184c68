/**
  The stateful side of the cart hook: the provider keeps the published list of
  products and a key-value storage, and every callback that changes the list
  publishes the new list and then writes the same list under the cart's storage
  key. Storage is modelled as a map from keys to stored lists; the JSON text the
  source writes is abstracted to the list itself.
 */
module CartStore {
  import opened CartList

  /** The one key the provider reads at start-up and writes after every change. */
  const StorageKey: string := "@GO_MARKETPLACE/cart_products"

  datatype Option<T> = None | Some(value: T)

  /** What the provider does to the outside world, in order: a `setProducts` or a `setItem` call. */
  datatype Event = Published(list: seq<Product>) | Written(list: seq<Product>)

  /** The list of the last `setItem` in the log, if any. */
  ghost function LastWritten(events: seq<Event>): (w: Option<seq<Product>>)
    ensures w.Some? <==> exists i :: 0 <= i < |events| && events[i].Written?
  {
    if |events| == 0 then None
    else if events[|events| - 1].Written? then Some(events[|events| - 1].list)
    else LastWritten(events[..|events| - 1])
  }

  class CartProvider {
    /** The published state (`products` / `setProducts`). */
    var products: seq<Product>
    /** The key-value storage behind `getItem` / `setItem`. */
    var storage: map<string, seq<Product>>
    /** Every `setProducts` and `setItem` call, in the order they happen. */
    ghost var events: seq<Event>

    /** Once anything has been written, storage holds exactly the published list, which is the last one written. */
    ghost predicate Synced()
      reads this
    {
      match LastWritten(events)
      case None => true
      case Some(w) => StorageKey in storage && storage[StorageKey] == w && products == w
    }

    /** The state change a callback makes for the update `u` its list transform computed. */
    twostate predicate Applied(u: Update)
      reads this
    {
      match u
      case Unchanged =>
        products == old(products) && storage == old(storage) && events == old(events)
      case Publish(r) =>
        && products == r && storage == old(storage)[StorageKey := r]
        && events == old(events) + [Published(r), Written(r)]
    }

    /** The provider starts with an empty list, over whatever storage already holds. */
    constructor (stored: map<string, seq<Product>>)
      ensures products == [] && storage == stored && events == []
      ensures Synced()
    {
      products := [];
      storage := stored;
      events := [];
    }

    /** `getItem(StorageKey)`: the stored list, or nothing when the key is absent. */
    method GetItem() returns (snapshot: Option<seq<Product>>)
      ensures snapshot.Some? <==> StorageKey in storage
      ensures snapshot.Some? ==> snapshot.value == storage[StorageKey]
    {
      if StorageKey in storage {
        snapshot := Some(storage[StorageKey]);
      } else {
        snapshot := None;
      }
    }

    /**
      The rest of `loadProducts` once `getItem` has resolved: a snapshot that is
      present is published as the list, whatever has happened since it was read.
     */
    method AdoptSnapshot(snapshot: Option<seq<Product>>)
      modifies this
      ensures storage == old(storage)
      ensures snapshot.Some? ==> products == snapshot.value && events == old(events) + [Published(snapshot.value)]
      ensures snapshot.None? ==> products == old(products) && events == old(events)
      ensures old(Synced()) && snapshot.Some? && StorageKey in storage && snapshot.value == storage[StorageKey] ==> Synced()
      ensures old(Synced()) && snapshot.None? ==> Synced()
    {
      if snapshot.Some? {
        products := snapshot.value;
        assert (events + [Published(products)])[..|events|] == events;
        events := events + [Published(products)];
      }
    }

    /** `loadProducts` with nothing in between: read storage, then adopt what was read. */
    method LoadProducts()
      modifies this
      ensures storage == old(storage)
      ensures StorageKey in storage ==> products == storage[StorageKey] && events == old(events) + [Published(products)]
      ensures StorageKey !in storage ==> products == old(products) && events == old(events)
      ensures old(Synced()) ==> Synced()
    {
      var snapshot := GetItem();
      AdoptSnapshot(snapshot);
    }

    /** `setProducts(newProducts)` followed by `setItem(StorageKey, newProducts)`. */
    method Commit(newProducts: seq<Product>)
      modifies this
      ensures products == newProducts
      ensures storage == old(storage)[StorageKey := newProducts]
      ensures events == old(events) + [Published(newProducts), Written(newProducts)]
      ensures Synced()
    {
      products := newProducts;
      events := events + [Published(newProducts)];
      storage := storage[StorageKey := newProducts];
      events := events + [Written(newProducts)];
    }

    /** `increment(id)`: on a present id, one publish and one write of the list `IncrementList` gives; else nothing. */
    method Increment(id: string)
      modifies this
      ensures Applied(IncrementList(old(products), id))
      ensures IncrementList(old(products), id).Publish? ==> Synced()
      ensures old(Synced()) ==> Synced()
      ensures old(WellFormed(products)) ==> WellFormed(products)
    {
      if WellFormed(products) { IncrementPreserves(products, id); }
      var productIndex := FindIndex(products, id);
      var newProducts := products;
      if productIndex >= 0 {
        var oldProduct := newProducts[productIndex];
        var newProduct := oldProduct.(quantity := oldProduct.quantity + 1);
        newProducts := newProducts[productIndex := newProduct];
        Commit(newProducts);
      }
    }

    /** `decrement(id)`: on a present id, one publish and one write of the list `DecrementList` gives; else nothing. */
    method Decrement(id: string)
      modifies this
      ensures Applied(DecrementList(old(products), id))
      ensures DecrementList(old(products), id).Publish? ==> Synced()
      ensures old(Synced()) ==> Synced()
      ensures old(WellFormed(products)) ==> WellFormed(products)
    {
      if WellFormed(products) { DecrementPreserves(products, id); }
      var productIndex := FindIndex(products, id);
      var newProducts := products;
      if productIndex >= 0 {
        var oldProduct := newProducts[productIndex];
        if oldProduct.quantity - 1 <= 0 {
          newProducts := RemoveId(newProducts, id);
        } else {
          var newProduct := oldProduct.(quantity := oldProduct.quantity - 1);
          newProducts := newProducts[productIndex := newProduct];
        }
        Commit(newProducts);
      }
    }

    /** `addToCart(item)`: delegate to `Increment` on a known id, else append a new line; always exactly one publish and one write. */
    method AddToCart(item: Item)
      modifies this
      ensures Applied(AddToCartList(old(products), item))
      ensures Synced()
      ensures old(WellFormed(products)) ==> WellFormed(products)
    {
      if WellFormed(products) { AddToCartPreserves(products, item); }
      var foundIndex := FindIndex(products, item.id);
      if foundIndex >= 0 {
        Increment(item.id);
        return;
      }
      var newProducts := products + [NewLine(item)];
      Commit(newProducts);
    }
  }

  /**
    A session against the provider alone: a stored cart is adopted at start-up,
    a missing id changes nothing, and each effective change publishes and then
    writes the same list.
   */
  method ProviderSession(saved: seq<Product>)
    requires WellFormed(saved) && !HasId(saved, "p1")
  {
    var cart := new CartProvider(map[StorageKey := saved]);
    cart.LoadProducts();
    assert cart.products == saved && cart.events == [Published(saved)];

    cart.Increment("p1");
    assert cart.events == [Published(saved)] && cart.products == saved;

    var shirt := Item("p1", "Shirt", "u", 299);
    cart.AddToCart(shirt);
    AddToCartNew(saved, shirt);
    var added := saved + [NewLine(shirt)];
    assert cart.products == added && cart.storage[StorageKey] == added;
    assert cart.events == [Published(saved), Published(added), Written(added)];
    assert WellFormed(cart.products);

    cart.Decrement("p1");
    DecrementUndoesAddNew(saved, shirt);
    assert cart.products == saved && cart.storage[StorageKey] == saved;
    assert |cart.events| == 5;
  }

  /**
    The start-up race: `getItem` reads the stored cart, an `addToCart` runs on
    the still-empty list before the read resolves, and adopting the snapshot
    then drops the new line from the published list, while storage now holds
    only that line and no longer the saved cart.
   */
  method HydrationRace(saved: seq<Product>)
  {
    var cart := new CartProvider(map[StorageKey := saved]);
    var snapshot := cart.GetItem();
    var shirt := Item("p1", "Shirt", "u", 299);
    cart.AddToCart(shirt);
    cart.AdoptSnapshot(snapshot);
    assert cart.products == saved;
    assert cart.storage[StorageKey] == [NewLine(shirt)];
  }
}
