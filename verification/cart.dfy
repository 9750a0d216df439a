/**
 * The cart as kept in the browser's local store: one key, `'cart'`, holding the
 * list of `{title, price}` entries. Serialisation is abstracted away: the
 * store maps each key to the list it decodes to.
 */
module Cart {

  /** One "Add to Cart" click. Entries have no identity beyond title and price. */
  datatype CartItem = CartItem(title: string, price: real)

  /** The local key-value store. */
  type Store = map<string, seq<CartItem>>

  /** The single key the cart lives under. */
  const CartKey: string := "cart"

  /** The stored cart; an absent key reads as the empty cart. */
  function ReadCart(store: Store): (items: seq<CartItem>)
    ensures CartKey !in store ==> items == []
  {
    if CartKey in store then store[CartKey] else []
  }

  /** Every key other than the cart's is untouched. */
  ghost predicate OthersUnchanged(before: Store, after: Store)
  {
    forall k :: k != CartKey ==> (k in after <==> k in before) && (k in after ==> after[k] == before[k])
  }

  /** `addToCart`: read the list, push the new entry, write the whole list back. */
  function AddToCart(store: Store, title: string, price: real): (r: Store)
    ensures CartKey in r
    ensures |ReadCart(r)| == |ReadCart(store)| + 1
    ensures ReadCart(r)[..|ReadCart(store)|] == ReadCart(store)
    ensures ReadCart(r)[|ReadCart(store)|] == CartItem(title, price)
    ensures OthersUnchanged(store, r)
  {
    store[CartKey := ReadCart(store) + [CartItem(title, price)]]
  }

  /** `clearCart`: delete the key itself, not merely empty the list. */
  function ClearCart(store: Store): (r: Store)
    ensures CartKey !in r
    ensures ReadCart(r) == []
    ensures OthersUnchanged(store, r)
  {
    store - {CartKey}
  }

  /** A run of clicks, one `addToCart` per entry, in order. */
  function AddAll(store: Store, items: seq<CartItem>): Store
    decreases |items|
  {
    if items == [] then store
    else AddAll(AddToCart(store, items[0].title, items[0].price), items[1..])
  }

  /** Adding a sequence of entries appends exactly those entries, in click order, after the existing ones. */
  lemma {:induction false} AddAllAppends(store: Store, items: seq<CartItem>)
    ensures ReadCart(AddAll(store, items)) == ReadCart(store) + items
    decreases |items|
  {
    if items != [] {
      var next := AddToCart(store, items[0].title, items[0].price);
      AddAllAppends(next, items[1..]);
      assert ReadCart(next) == ReadCart(store) + [items[0]];
      assert items == [items[0]] + items[1..];
    }
  }

  /** Adding to an empty store and reading back yields exactly the one entry. */
  lemma AddToEmpty(title: string, price: real)
    ensures ReadCart(AddToCart(map[], title, price)) == [CartItem(title, price)]
  {
  }

  /** Adding the same product twice keeps two identical entries; nothing is merged or counted. */
  lemma AddTwiceKeepsDuplicates(store: Store, title: string, price: real)
    ensures ReadCart(AddToCart(AddToCart(store, title, price), title, price))
         == ReadCart(store) + [CartItem(title, price), CartItem(title, price)]
  {
    AddAllAppends(store, [CartItem(title, price), CartItem(title, price)]);
    assert [CartItem(title, price), CartItem(title, price)][1..] == [CartItem(title, price)];
  }

  /** Whatever was in the cart, after clearing it a read yields the empty list and a new add starts afresh. */
  lemma ClearThenAdd(store: Store, title: string, price: real)
    ensures ReadCart(ClearCart(store)) == []
    ensures ReadCart(AddToCart(ClearCart(store), title, price)) == [CartItem(title, price)]
  {
  }
}
