/**
  The cart list of the storefront's cart hook: an ordered list of products,
  and the three list transforms that `addToCart`, `increment` and `decrement`
  perform before they publish and persist the new list.

  Every transform returns an `Update`: either `Unchanged`, when the callback
  publishes and persists nothing, or `Publish(list)`, the one new list that is
  both published as state and written to storage.
 */
module CartList {

  /** One cart line. `price` is only ever copied, so it is kept as an opaque integer. */
  datatype Product = Product(id: string, title: string, imageUrl: string, price: int, quantity: int)

  /** What `addToCart` receives: a product without its quantity. */
  datatype Item = Item(id: string, title: string, imageUrl: string, price: int)

  /** The outcome of one callback: nothing happens, or this list is published and persisted. */
  datatype Update = Unchanged | Publish(list: seq<Product>)

  // ---------------------------------------------------------------------------
  // The cart invariant

  predicate HasId(s: seq<Product>, id: string) {
    exists i :: 0 <= i < |s| && s[i].id == id
  }

  predicate UniqueIds(s: seq<Product>) {
    forall i, j :: 0 <= i < j < |s| ==> s[i].id != s[j].id
  }

  predicate QuantitiesPositive(s: seq<Product>) {
    forall i :: 0 <= i < |s| ==> s[i].quantity >= 1
  }

  /** No two lines share an id and no line is kept at a quantity below one. */
  predicate WellFormed(s: seq<Product>) {
    UniqueIds(s) && QuantitiesPositive(s)
  }

  /** `r` is `s` with the line at `k` replaced by `p`, at the same position. */
  predicate ReplacedAt(s: seq<Product>, r: seq<Product>, k: int, p: Product) {
    && 0 <= k < |s|
    && |r| == |s|
    && r[k] == p
    && forall j :: 0 <= j < |s| && j != k ==> r[j] == s[j]
  }

  // ---------------------------------------------------------------------------
  // The array primitives the callbacks use

  /** `Array.prototype.findIndex` with the predicate `product.id === id`: the first index, or -1. */
  function FindIndex(s: seq<Product>, id: string): (r: int)
    ensures -1 <= r < |s|
    ensures 0 <= r ==> s[r].id == id && forall j :: 0 <= j < r ==> s[j].id != id
    ensures r < 0 <==> !HasId(s, id)
  {
    if |s| == 0 then -1
    else if s[0].id == id then 0
    else
      var k := FindIndex(s[1..], id);
      if k < 0 then -1 else k + 1
  }

  /** `Array.prototype.filter` with the predicate `product.id !== id`. */
  function RemoveId(s: seq<Product>, id: string): (r: seq<Product>)
    ensures |r| <= |s|
  {
    if |s| == 0 then []
    else if s[0].id == id then RemoveId(s[1..], id)
    else [s[0]] + RemoveId(s[1..], id)
  }

  /** The line `addToCart` appends for an item not yet in the cart. */
  function NewLine(item: Item): (p: Product)
    ensures p.id == item.id && p.title == item.title && p.imageUrl == item.imageUrl
    ensures p.price == item.price && p.quantity == 1
  {
    Product(item.id, item.title, item.imageUrl, item.price, 1)
  }

  // ---------------------------------------------------------------------------
  // The three transforms

  /** `increment(id)`: bump the quantity of the line found by `findIndex`, in place. */
  function IncrementList(s: seq<Product>, id: string): (u: Update)
    ensures u.Unchanged? <==> !HasId(s, id)
    ensures u.Publish? ==> |u.list| == |s| && forall j :: 0 <= j < |s| ==> u.list[j].id == s[j].id
  {
    var i := FindIndex(s, id);
    if i < 0 then Unchanged
    else Publish(s[i := s[i].(quantity := s[i].quantity + 1)])
  }

  /** `decrement(id)`: drop every line with that id when the quantity would reach zero, else lower it in place. */
  function DecrementList(s: seq<Product>, id: string): (u: Update)
    ensures u.Unchanged? <==> !HasId(s, id)
    ensures u.Publish? ==> |u.list| <= |s|
  {
    var i := FindIndex(s, id);
    if i < 0 then Unchanged
    else if s[i].quantity - 1 <= 0 then Publish(RemoveId(s, id))
    else Publish(s[i := s[i].(quantity := s[i].quantity - 1)])
  }

  /** `addToCart(item)`: delegate to `increment` when the id is present, else append a line of quantity one. */
  function AddToCartList(s: seq<Product>, item: Item): (u: Update)
    ensures u.Publish?
    ensures HasId(u.list, item.id)
  {
    var i := FindIndex(s, item.id);
    if i >= 0 then
      assert IncrementList(s, item.id).list[i].id == item.id;
      IncrementList(s, item.id)
    else
      var r := s + [NewLine(item)];
      assert r[|s|].id == item.id;
      Publish(r)
  }

  // ---------------------------------------------------------------------------
  // The cart seen as a quantity per id

  /** The quantity the cart holds for `id`: that of the line `findIndex` finds, or zero. */
  function QuantityOf(s: seq<Product>, id: string): (q: int)
    ensures !HasId(s, id) ==> q == 0
    ensures QuantitiesPositive(s) && HasId(s, id) ==> q >= 1
  {
    var i := FindIndex(s, id);
    if i < 0 then 0 else s[i].quantity
  }

  // ---------------------------------------------------------------------------
  // Facts about the primitives

  /** `findIndex` finds the first line holding `id`. */
  lemma FindIndexAt(s: seq<Product>, id: string, k: int)
    requires 0 <= k < |s| && s[k].id == id
    requires forall j :: 0 <= j < k ==> s[j].id != id
    ensures FindIndex(s, id) == k
  {
  }

  /** Two lists with the same ids at the same positions give the same `findIndex`. */
  lemma FindIndexSameIds(s: seq<Product>, t: seq<Product>, id: string)
    requires |s| == |t|
    requires forall j :: 0 <= j < |s| ==> s[j].id == t[j].id
    ensures FindIndex(s, id) == FindIndex(t, id)
  {
    var a, b := FindIndex(s, id), FindIndex(t, id);
    if a >= 0 { assert t[a].id == id; }
    if b >= 0 { assert s[b].id == id; }
  }

  /** Filtering distributes over concatenation, so every kept line keeps its order and multiplicity. */
  lemma {:induction false} RemoveIdAppend(s: seq<Product>, t: seq<Product>, id: string)
    ensures RemoveId(s + t, id) == RemoveId(s, id) + RemoveId(t, id)
    decreases |s|
  {
    if |s| == 0 {
      assert s + t == t;
    } else {
      assert (s + t)[1..] == s[1..] + t;
      RemoveIdAppend(s[1..], t, id);
    }
  }

  /** The filtered list holds exactly the lines of the input whose id differs. */
  lemma {:induction false} RemoveIdMembers(s: seq<Product>, id: string)
    ensures forall p :: p in RemoveId(s, id) <==> p in s && p.id != id
    decreases |s|
  {
    if |s| > 0 {
      RemoveIdMembers(s[1..], id);
      assert s == [s[0]] + s[1..];
    }
  }

  /** Filtering out an id that occurs only at `k` removes exactly that line and keeps the order of the rest. */
  lemma {:induction false} RemoveIdAt(s: seq<Product>, id: string, k: int)
    requires 0 <= k < |s| && s[k].id == id
    requires forall j :: 0 <= j < |s| && j != k ==> s[j].id != id
    ensures RemoveId(s, id) == s[..k] + s[k + 1..]
    decreases |s|
  {
    var tail := s[1..];
    forall j | 0 <= j < |tail| && j != k - 1 ensures tail[j].id != id {
      assert tail[j] == s[j + 1];
    }
    if k == 0 {
      RemoveIdAbsent(tail, id);
      assert s[..0] + s[1..] == tail;
    } else {
      RemoveIdAt(tail, id, k - 1);
      assert RemoveId(s, id) == [s[0]] + (tail[..k - 1] + tail[k..]);
      assert tail[..k - 1] == s[1..k];
      assert tail[k..] == s[k + 1..];
      assert [s[0]] + s[1..k] == s[..k];
    }
  }

  /** Filtering out an id that does not occur changes nothing. */
  lemma {:induction false} RemoveIdAbsent(s: seq<Product>, id: string)
    requires !HasId(s, id)
    ensures RemoveId(s, id) == s
    decreases |s|
  {
    if |s| > 0 {
      assert s[0].id != id;
      assert !HasId(s[1..], id) by {
        forall j | 0 <= j < |s[1..]| ensures s[1..][j].id != id {
          assert s[1..][j] == s[j + 1];
        }
      }
      RemoveIdAbsent(s[1..], id);
      assert s == [s[0]] + s[1..];
    }
  }

  /** Filtering keeps ids unique. */
  lemma {:induction false} RemoveIdUnique(s: seq<Product>, id: string)
    requires UniqueIds(s)
    ensures UniqueIds(RemoveId(s, id))
    decreases |s|
  {
    if |s| > 0 {
      var tail := s[1..];
      assert UniqueIds(tail) by {
        forall i, j | 0 <= i < j < |tail| ensures tail[i].id != tail[j].id {
          assert tail[i] == s[i + 1] && tail[j] == s[j + 1];
        }
      }
      RemoveIdUnique(tail, id);
      RemoveIdMembers(tail, id);
      var rest := RemoveId(tail, id);
      if s[0].id != id {
        forall p | p in rest ensures p.id != s[0].id {
          assert p in tail;
          var m :| 0 <= m < |tail| && tail[m] == p;
          assert s[m + 1] == p;
        }
        var r := [s[0]] + rest;
        forall i, j | 0 <= i < j < |r| ensures r[i].id != r[j].id {
          if i == 0 {
            assert r[j] == rest[j - 1];
            assert r[j] in rest;
          } else {
            assert r[i] == rest[i - 1] && r[j] == rest[j - 1];
          }
        }
      }
    }
  }

  // ---------------------------------------------------------------------------
  // increment

  /** `increment` on an id that is not in the cart publishes and persists nothing. */
  lemma IncrementMissing(s: seq<Product>, id: string)
    requires !HasId(s, id)
    ensures IncrementList(s, id) == Unchanged
  {
  }

  /** `increment` replaces only the line `findIndex` finds, at its position, with quantity one higher and every other field copied. */
  lemma IncrementPresent(s: seq<Product>, id: string, k: int)
    requires 0 <= k < |s| && s[k].id == id
    requires forall j :: 0 <= j < k ==> s[j].id != id
    ensures IncrementList(s, id).Publish?
    ensures ReplacedAt(s, IncrementList(s, id).list, k, s[k].(quantity := s[k].quantity + 1))
  {
    FindIndexAt(s, id, k);
  }

  /** `increment` raises the quantity held for `id` by one and leaves every other id's quantity alone. */
  lemma IncrementQuantity(s: seq<Product>, id: string, x: string)
    requires HasId(s, id)
    ensures QuantityOf(IncrementList(s, id).list, x) == QuantityOf(s, x) + (if x == id then 1 else 0)
  {
    var r := IncrementList(s, id).list;
    FindIndexSameIds(s, r, x);
  }

  /** `increment` keeps the cart invariant. */
  lemma IncrementPreserves(s: seq<Product>, id: string)
    requires WellFormed(s)
    ensures IncrementList(s, id).Publish? ==> WellFormed(IncrementList(s, id).list)
  {
    var u := IncrementList(s, id);
    if u.Publish? {
      var r := u.list;
      var k := FindIndex(s, id);
      assert forall j :: 0 <= j < |r| ==> r[j].id == s[j].id && r[j].quantity >= s[j].quantity;
    }
  }

  // ---------------------------------------------------------------------------
  // decrement

  /** `decrement` on an id that is not in the cart publishes and persists nothing. */
  lemma DecrementMissing(s: seq<Product>, id: string)
    requires !HasId(s, id)
    ensures DecrementList(s, id) == Unchanged
  {
  }

  /** `decrement` of a line at quantity one or less publishes the list filtered of that id. */
  lemma DecrementRemoves(s: seq<Product>, id: string, k: int)
    requires 0 <= k < |s| && s[k].id == id
    requires forall j :: 0 <= j < k ==> s[j].id != id
    requires s[k].quantity <= 1
    ensures DecrementList(s, id) == Publish(RemoveId(s, id))
    ensures !HasId(DecrementList(s, id).list, id)
  {
    FindIndexAt(s, id, k);
    RemoveIdMembers(s, id);
    var r := RemoveId(s, id);
    assert forall j :: 0 <= j < |r| ==> r[j] in r;
  }

  /** With unique ids, that removal drops exactly the one line and keeps the others in their order. */
  lemma DecrementRemovesOne(s: seq<Product>, id: string, k: int)
    requires UniqueIds(s)
    requires 0 <= k < |s| && s[k].id == id && s[k].quantity <= 1
    ensures DecrementList(s, id) == Publish(s[..k] + s[k + 1..])
    ensures |DecrementList(s, id).list| == |s| - 1
  {
    FindIndexAt(s, id, k);
    RemoveIdAt(s, id, k);
  }

  /** `decrement` of a line above quantity one lowers it in place; nothing else changes. */
  lemma DecrementLowers(s: seq<Product>, id: string, k: int)
    requires 0 <= k < |s| && s[k].id == id
    requires forall j :: 0 <= j < k ==> s[j].id != id
    requires s[k].quantity > 1
    ensures DecrementList(s, id).Publish?
    ensures ReplacedAt(s, DecrementList(s, id).list, k, s[k].(quantity := s[k].quantity - 1))
  {
    FindIndexAt(s, id, k);
  }

  /** Dropping the line at `k` leaves the quantity of every other id of a uniquely keyed list unchanged. */
  lemma QuantityWithout(s: seq<Product>, k: int, x: string)
    requires UniqueIds(s) && 0 <= k < |s| && s[k].id != x
    ensures QuantityOf(s[..k] + s[k + 1..], x) == QuantityOf(s, x)
  {
    var r := s[..k] + s[k + 1..];
    assert forall j :: 0 <= j < |r| ==> r[j] == if j < k then s[j] else s[j + 1];
    if HasId(s, x) {
      var m := FindIndex(s, x);
      var m' := if m < k then m else m - 1;
      assert r[m'] == s[m];
      FindIndexAt(r, x, m');
    } else {
      assert !HasId(r, x);
    }
  }

  /** In a well-formed cart `decrement` lowers the quantity held for `id` by one (to zero means gone) and no other. */
  lemma DecrementQuantity(s: seq<Product>, id: string, x: string)
    requires WellFormed(s) && HasId(s, id)
    ensures QuantityOf(DecrementList(s, id).list, x) == QuantityOf(s, x) - (if x == id then 1 else 0)
  {
    var k := FindIndex(s, id);
    var r := DecrementList(s, id).list;
    if s[k].quantity - 1 <= 0 {
      if x == id {
        DecrementRemoves(s, id, k);
      } else {
        DecrementRemovesOne(s, id, k);
        QuantityWithout(s, k, x);
      }
    } else {
      FindIndexSameIds(s, r, x);
    }
  }

  /** `decrement` keeps the cart invariant. */
  lemma DecrementPreserves(s: seq<Product>, id: string)
    requires WellFormed(s)
    ensures DecrementList(s, id).Publish? ==> WellFormed(DecrementList(s, id).list)
  {
    var u := DecrementList(s, id);
    if u.Publish? {
      var k := FindIndex(s, id);
      var r := u.list;
      if s[k].quantity - 1 <= 0 {
        RemoveIdUnique(s, id);
        RemoveIdMembers(s, id);
        forall j | 0 <= j < |r| ensures r[j].quantity >= 1 {
          assert r[j] in r;
          assert r[j] in s;
        }
      } else {
        assert forall j :: 0 <= j < |r| ==> r[j].id == s[j].id && r[j].quantity >= 1;
      }
    }
  }

  // ---------------------------------------------------------------------------
  // addToCart

  /** `addToCart` of an id already in the cart inserts nothing: it is exactly `increment(id)`. */
  lemma AddToCartPresent(s: seq<Product>, item: Item)
    requires HasId(s, item.id)
    ensures AddToCartList(s, item) == IncrementList(s, item.id)
    ensures |AddToCartList(s, item).list| == |s|
  {
  }

  /** `addToCart` of a new id appends one line of quantity one built from the item; the earlier lines are kept in order. */
  lemma AddToCartNew(s: seq<Product>, item: Item)
    requires !HasId(s, item.id)
    ensures var r := AddToCartList(s, item).list;
      && |r| == |s| + 1
      && r[..|s|] == s
      && r[|s|] == Product(item.id, item.title, item.imageUrl, item.price, 1)
  {
  }

  /** `addToCart` raises the quantity held for the item's id by one and leaves every other id's quantity alone. */
  lemma AddToCartQuantity(s: seq<Product>, item: Item, x: string)
    ensures QuantityOf(AddToCartList(s, item).list, x) == QuantityOf(s, x) + (if x == item.id then 1 else 0)
  {
    if HasId(s, item.id) {
      IncrementQuantity(s, item.id, x);
    } else {
      var r := AddToCartList(s, item).list;
      assert r == s + [NewLine(item)];
      if HasId(s, x) {
        var m := FindIndex(s, x);
        assert r[m] == s[m];
        FindIndexAt(r, x, m);
      } else if x == item.id {
        FindIndexAt(r, x, |s|);
      } else {
        assert !HasId(r, x) by {
          forall j | 0 <= j < |r| ensures r[j].id != x {
            if j < |s| { assert r[j] == s[j]; }
          }
        }
      }
    }
  }

  /** `addToCart` keeps the cart invariant. */
  lemma AddToCartPreserves(s: seq<Product>, item: Item)
    requires WellFormed(s)
    ensures WellFormed(AddToCartList(s, item).list)
  {
    if HasId(s, item.id) {
      IncrementPreserves(s, item.id);
    } else {
      var r := AddToCartList(s, item).list;
      assert r == s + [NewLine(item)];
      forall i, j | 0 <= i < j < |r| ensures r[i].id != r[j].id {
        if j == |s| {
          assert r[i] == s[i];
        } else {
          assert r[i] == s[i] && r[j] == s[j];
        }
      }
      forall j | 0 <= j < |r| ensures r[j].quantity >= 1 {
        if j < |s| { assert r[j] == s[j]; }
      }
    }
  }

  /** Adding the same new item twice gives one line of quantity two, not two lines. */
  lemma AddToCartTwiceMerges(s: seq<Product>, item: Item)
    requires !HasId(s, item.id)
    ensures AddToCartList(s, item).Publish?
    ensures var once := AddToCartList(s, item).list;
      AddToCartList(once, item) == Publish(s + [NewLine(item).(quantity := 2)])
  {
    var once := AddToCartList(s, item).list;
    assert once == s + [NewLine(item)];
    FindIndexAt(once, item.id, |s|);
    assert once[|s| := NewLine(item).(quantity := 2)] == s + [NewLine(item).(quantity := 2)];
  }

  // ---------------------------------------------------------------------------
  // How the transforms undo each other

  /** `decrement` undoes `increment` on a present id when every quantity is at least one. */
  lemma DecrementUndoesIncrement(s: seq<Product>, id: string)
    requires QuantitiesPositive(s) && HasId(s, id)
    ensures IncrementList(s, id).Publish?
    ensures DecrementList(IncrementList(s, id).list, id) == Publish(s)
  {
    var k := FindIndex(s, id);
    var r := IncrementList(s, id).list;
    FindIndexSameIds(s, r, id);
    assert r[k := r[k].(quantity := r[k].quantity - 1)] == s;
  }

  /** `increment` undoes a `decrement` that lowered a line in place. */
  lemma IncrementUndoesDecrement(s: seq<Product>, id: string)
    requires HasId(s, id) && QuantityOf(s, id) > 1
    ensures DecrementList(s, id).Publish?
    ensures IncrementList(DecrementList(s, id).list, id) == Publish(s)
  {
    var k := FindIndex(s, id);
    var r := DecrementList(s, id).list;
    FindIndexSameIds(s, r, id);
    assert r[k := r[k].(quantity := r[k].quantity + 1)] == s;
  }

  /** `decrement` undoes an `addToCart` that appended a new line. */
  lemma DecrementUndoesAddNew(s: seq<Product>, item: Item)
    requires !HasId(s, item.id)
    ensures DecrementList(AddToCartList(s, item).list, item.id) == Publish(s)
  {
    var r := AddToCartList(s, item).list;
    assert r == s + [NewLine(item)];
    FindIndexAt(r, item.id, |s|);
    forall j | 0 <= j < |r| && j != |s| ensures r[j].id != item.id {
      assert r[j] == s[j];
    }
    RemoveIdAt(r, item.id, |s|);
    assert r[..|s|] + r[|s| + 1..] == s;
  }

  /** A session: add, increment, decrement twice, back to empty. */
  lemma ShirtSession()
    ensures var shirt := Item("p1", "Shirt", "u", 299);
      var line := NewLine(shirt);
      && AddToCartList([], shirt) == Publish([line])
      && IncrementList([line], "p1") == Publish([line.(quantity := 2)])
      && DecrementList([line.(quantity := 2)], "p1") == Publish([line])
      && DecrementList([line], "p1") == Publish([])
  {
    var line := NewLine(Item("p1", "Shirt", "u", 299));
    FindIndexAt([line], "p1", 0);
    FindIndexAt([line.(quantity := 2)], "p1", 0);
    assert RemoveId([line], "p1") == [];
  }
}
