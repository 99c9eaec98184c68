# Cart provider of the gomarketplace storefront, in Dafny

This project models the cart hook of the gomarketplace React Native client
(`src/hooks/cart.tsx`). The cart is an ordered list of products
`{id, title, image_url, price, quantity}`. The `CartProvider` component holds
that list as state. It offers three callbacks:

- `addToCart(item)` merges an id already in the cart by delegating to
  `increment`, or appends a new line with quantity 1.
- `increment(id)` raises the quantity of the line `findIndex` finds, in place.
- `decrement(id)` lowers that quantity, or filters the id out of the list when
  the quantity would drop to zero or below.

After every change that happens, the new list is published (`setProducts`) and
the same list is written to AsyncStorage under the key
`@GO_MARKETPLACE/cart_products`. At start-up, `loadProducts` adopts the stored
list if one is present.

Layout:

- `cart_list.dfy`, module `CartList`: the `Product` and `Item` records and the
  list primitives (`FindIndex` for `findIndex`, `RemoveId` for `filter`). It
  holds the three transforms as pure functions returning an `Update`, which is
  either `Unchanged` (no publish, no write) or `Publish(list)`. It also holds a
  per-id quantity view (`QuantityOf`) and the lemmas about all of these.
- `cart_provider.dfy`, module `CartStore`: class `CartProvider`. Its fields are
  the published `products`, the key-value `storage`, and a ghost log `events`
  of every `setProducts` (`Published`) and `setItem` (`Written`) call, in
  order. Each callback is a method whose new state is tied to the matching
  transform by the two-state predicate `Applied`. `Synced()` says that once
  anything has been written, storage and the published list both equal the
  last list written. Loading is split in two. `GetItem` is the `getItem` read.
  `AdoptSnapshot` is the `setProducts` once that read resolves. A mutation can
  run between the two, as in the source.

Behaviour of the source that the model keeps:

- `decrement` filters out every line with the id (src/hooks/cart.tsx:87), not
  only the one `findIndex` found. `DecrementList` does the same.
  `DecrementRemovesOne` shows this is exactly one line when ids are unique.
- Nothing orders hydration before the mutations. `getItem` (src/hooks/cart.tsx:34)
  may resolve after a mutation has published and written, and line 37 then
  replaces the published list with the older snapshot. `HydrationRace` runs
  `GetItem`, `AddToCart` and `AdoptSnapshot` in that order. It shows that the
  added line is lost from the published list, while storage holds only that
  line.

## Model

| member | source | states |
|---|---|---|
| CartList.FindIndex | src/hooks/cart.tsx:61 | the result is -1 exactly when no line has the id; otherwise it is a line with the id and no earlier line has it |
| CartList.RemoveId | src/hooks/cart.tsx:87 | the filtered list is never longer than the input |
| CartList.RemoveIdAppend | src/hooks/cart.tsx:87 | filtering a concatenation is the concatenation of the filtered parts, so kept lines keep their order and multiplicity |
| CartList.NewLine | src/hooks/cart.tsx:51-54 | the appended line carries the item's id, title, image and price, with quantity 1 |
| CartList.RemoveIdMembers | src/hooks/cart.tsx:87 | the filtered list holds exactly the lines of the input whose id differs |
| CartList.IncrementList | src/hooks/cart.tsx:60-77 | nothing is published exactly when the id is absent; when published, the list has the same length and the same id at every position |
| CartList.DecrementList | src/hooks/cart.tsx:79-100 | nothing is published exactly when the id is absent; a published list is never longer |
| CartList.AddToCartList | src/hooks/cart.tsx:43-58 | addToCart always publishes, and the published list contains the item's id |
| CartList.FindIndexAt | src/hooks/cart.tsx:61 | findIndex returns the first position holding the id |
| CartList.RemoveIdAt | src/hooks/cart.tsx:87 | filtering out an id held only at k gives the list without position k, the rest in order |
| CartList.RemoveIdAbsent | src/hooks/cart.tsx:87 | filtering out an id no line has returns the list unchanged |
| CartList.RemoveIdUnique | src/hooks/cart.tsx:87 | filtering keeps ids unique |
| CartList.IncrementMissing | src/hooks/cart.tsx:61-64 | increment of an absent id publishes and writes nothing |
| CartList.IncrementPresent | src/hooks/cart.tsx:64-71 | increment replaces only the first line with the id, at its position, with quantity + 1 and the other fields copied; the length is kept |
| CartList.IncrementQuantity | src/hooks/cart.tsx:64-71 | increment raises the id's quantity by one and leaves every other id's quantity unchanged |
| CartList.IncrementPreserves | src/hooks/cart.tsx:64-71 | unique ids and quantities of at least one survive increment |
| CartList.DecrementMissing | src/hooks/cart.tsx:80-83 | decrement of an absent id publishes and writes nothing |
| CartList.DecrementRemoves | src/hooks/cart.tsx:86-87 | decrement at quantity at most one publishes the list filtered of the id, and the id is gone |
| CartList.DecrementRemovesOne | src/hooks/cart.tsx:86-87 | with unique ids that removal drops exactly the one line, shortens the list by one and keeps the others in order |
| CartList.DecrementLowers | src/hooks/cart.tsx:89-94 | decrement above quantity one replaces that line in place with quantity - 1; nothing else changes |
| CartList.DecrementQuantity | src/hooks/cart.tsx:83-95 | in a well-formed cart decrement lowers the id's quantity by one (zero meaning removed) and no other id's |
| CartList.DecrementPreserves | src/hooks/cart.tsx:83-95 | unique ids and quantities of at least one survive decrement |
| CartList.AddToCartPresent | src/hooks/cart.tsx:44-48 | addToCart of a present id is exactly increment of that id, so the length is kept |
| CartList.AddToCartNew | src/hooks/cart.tsx:51-54 | addToCart of a new id appends one line with quantity 1 and the item's id, title, image and price; the earlier lines are unchanged and in order |
| CartList.AddToCartQuantity | src/hooks/cart.tsx:43-54 | addToCart raises the item's quantity by one and leaves every other id's quantity unchanged |
| CartList.AddToCartPreserves | src/hooks/cart.tsx:43-54 | unique ids and quantities of at least one survive addToCart |
| CartList.AddToCartTwiceMerges | src/hooks/cart.tsx:43-54 | adding the same new item twice gives one line of quantity 2, not two lines |
| CartList.DecrementUndoesIncrement | src/hooks/cart.tsx:60-100 | when every quantity is at least one, decrement after increment of a present id gives back the original list |
| CartList.IncrementUndoesDecrement | src/hooks/cart.tsx:60-100 | increment after an in-place decrement gives back the original list |
| CartList.DecrementUndoesAddNew | src/hooks/cart.tsx:43-100 | decrement after adding a new item gives back the original list |
| CartList.ShirtSession | src/hooks/cart.tsx:43-100 | add, increment, decrement, decrement of one item goes [p1×1], [p1×2], [p1×1], [] |
| CartStore.CartProvider.constructor | src/hooks/cart.tsx:29 | the provider starts with an empty published list over the existing storage, with an empty event log |
| CartStore.CartProvider.GetItem | src/hooks/cart.tsx:34 | the read returns the list stored under the cart key exactly when the key is present |
| CartStore.CartProvider.AdoptSnapshot | src/hooks/cart.tsx:36-37 | a present snapshot is published once and becomes the list, whatever happened since the read; an absent one changes nothing; storage is not written |
| CartStore.CartProvider.LoadProducts | src/hooks/cart.tsx:33-38 | with nothing in between, a stored list under the cart key is published once and becomes the list; without one nothing happens; storage is not written; sync is kept |
| CartStore.CartProvider.Commit | src/hooks/cart.tsx:56-57 | logs `Published(list)` followed by `Written(list)`, and stores that same list under the cart key and nowhere else |
| CartStore.CartProvider.Increment | src/hooks/cart.tsx:60-77 | state changes exactly as IncrementList says: no event on an absent id, else `Published` then `Written` of the new list; storage stays equal to the list; well-formedness is kept |
| CartStore.CartProvider.Decrement | src/hooks/cart.tsx:79-100 | state changes exactly as DecrementList says, with the same publish/write discipline and kept well-formedness |
| CartStore.CartProvider.AddToCart | src/hooks/cart.tsx:43-58 | state changes exactly as AddToCartList says, which always logs `Published` then `Written` of the new list; afterwards storage equals the published list |

## Left out

- React plumbing is not modelled: `createContext`, `useState`, `useCallback`, `useMemo`, `useEffect`, the provider's JSX, and `useCart`'s missing-context throw (src/hooks/cart.tsx:110-118).
- `console.log` (src/hooks/cart.tsx:30) is not modelled. It has no effect on the cart.
- The stored value is the list itself, not JSON text. `JSON.stringify` and `JSON.parse` are not modelled, and neither is the serialise-then-hydrate round trip.
- `loadProducts` does not catch a failing `JSON.parse` (src/hooks/cart.tsx:37). The model has no JSON, so this case does not arise in it.
- The model has no empty-string snapshot. The check `if (productsStorage)` (src/hooks/cart.tsx:36) skips only a missing or empty string. The provider never writes one, because even an emptied cart is written as the text `"[]"`.
- AsyncStorage is a plain map updated at once. A failing `setItem` or `getItem` is not modelled.
- Overlapping mutations are not modelled. Each callback runs atomically on the current list, so lost updates between two callbacks that read the same stale list are not captured. The one interleaving modelled is the start-up race, through `GetItem` and `AdoptSnapshot`.
- `price` is an integer that is only copied. `quantity` is an unbounded integer, so floating-point precision above 2^53 is not modelled.
