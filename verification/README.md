# Storefront page script — a Dafny model

This project models the data path of a storefront page script (`script.js`).
The page fetches a product catalog and narrows it with two client-side filters:
a free-text title search and an inclusive price range, applied search first.
It then sorts the products into four category regions and keeps a shopping
cart under one key of the browser's local store. The model covers:

- **Text** (`text.dfy`): the string primitives the search uses. These are
  `trim` (the ECMAScript whitespace and line-terminator set), `toLowerCase`
  (ASCII letters) and `includes`. `includes` is proved equal to "the term
  occurs at some index".
- **Seqs** (`seqs.dfy`): the order-preserving `Array.prototype.filter`. It
  also gives a declarative description of a stable filter, `ExactFilter`: an
  order-preserving subsequence holding every kept element as often as the
  input does and nothing else. The lemmas prove this description holds of
  `Filter` and of nothing else.
- **Catalog** (`catalog.dfy`): `Product`, `filterBySearchTerm`,
  `filterByPriceRange` and the search-then-price composition of
  `applyFilters`. A price bound that parses is `Some(v)`; one that does not
  (`NaN` in the script) is `None`.
- **Shelves** (`shelves.dfy`): the category `switch` of `displayProducts`,
  with the catalog's own spelling `jewelery`, and `clearProducts`. The four
  regions hold the products whose cards they show.
- **Cart** (`cart.dfy`): the local store as a map from keys to the decoded
  cart list. It models `addToCart` (read, push, write back), `clearCart`
  (delete the key) and the cart read of `displayCartItems`, where an absent
  key reads as `[]`.
- **Page** (`page.dfy`): `applyFilters` with the outcome of the catalog
  request as a parameter. On failure the regions are left as they were; on
  success the filtered catalog is rendered.

Two details of `script.js` shape the model:

- The cart read is `JSON.parse(localStorage.getItem('cart')) || []`
  (script.js:5, script.js:157). An absent key yields `null`, which reads as
  `[]`. A stored JSON `null`, `false`, `0` or `""` would read as `[]` too,
  although the script only ever writes arrays. A stored value that is not
  valid JSON makes `JSON.parse` throw. The model's store holds decoded cart
  lists, so neither of the last two cases can arise in it.
- The jewelry region's element is `jewelry-products` (script.js:45), but the
  `switch` compares the lower-cased category against `'jewelery'`
  (script.js:59). A product whose category is spelled "jewelry" is therefore
  dropped (`Shelves.ClassifyDrops`).

## Model

| member | source | states |
|---|---|---|
| Text.Trim | script.js:90 | `trim` returns a slice of the term with only whitespace outside it; the slice neither starts nor ends with whitespace; it is empty exactly when the term is all whitespace |
| Text.ContainsOccurs | script.js:92 | `includes` holds exactly when the term occurs at some index of the title |
| Text.LowerTrimCommute | script.js:90 | lower-casing and trimming commute, so the order of `trim().toLowerCase()` does not affect the term |
| Seqs.FilterIsExact | script.js:92 | the stable filter returns an order-preserving subsequence of its input; it holds every kept element as many times as the input does and no dropped element |
| Seqs.ExactFilterUnique | script.js:100-103 | that description fixes the result: any sequence meeting it is the filter's result |
| Catalog.NormalizeTerm | script.js:90-91 | the normalised term is empty exactly when the raw term is empty or all whitespace, and it holds no capitals |
| Catalog.FilterBySearchTerm | script.js:89-93 | a blank term returns the input unchanged; otherwise the result is exactly the products whose lower-cased title includes the term, in input order |
| Catalog.SearchMembers | script.js:92 | a product survives the search exactly when it is in the input and the term is blank or occurs in its lower-cased title |
| Catalog.FilterByPriceRange | script.js:96-104 | with no parsable bound the input is returned unchanged; otherwise the result is exactly the products with price >= min (if present) and <= max (if present), in input order |
| Catalog.Pipeline | script.js:116-117 | search then price yields exactly the input products that pass both tests, in input order |
| Catalog.PipelineIsOneFilter | script.js:116-117 | the two filters in sequence equal one filter by the conjunction of their tests |
| Catalog.FiltersCommute | script.js:116-117 | applying price before search gives the same result as the fixed search-then-price order |
| Catalog.UnfilteredPipelineIsIdentity | script.js:89-104 | a blank term and two unparsable bounds return the catalog unchanged |
| Catalog.PipelineMembers | script.js:116-117 | a product survives the pipeline exactly when it is in the input, matches the term and lies within the bounds |
| Shelves.Classify | script.js:55-71 | a category goes to region c exactly when its lower-cased form equals c's label |
| Shelves.ClassifyLabel | script.js:56-67 | each of the four labels routes to its own region |
| Shelves.ClassifyDrops | script.js:59-70 | "toys" and the spelling "jewelry" match no case and go nowhere |
| Shelves.ClearProducts | script.js:76-86 | whatever the regions held, all four end up empty |
| Shelves.PlaceAllRegion | script.js:53-72 | the `forEach` appends to each region exactly the products of its category, in input order, after what the region already held |
| Shelves.DisplayProducts | script.js:43-73 | after rendering, each region holds exactly the input products of its category, in input order |
| Shelves.DisplayMembers | script.js:53-72 | a product is shown in region c exactly when it is in the input and its category maps to c |
| Shelves.DisplayPartitions | script.js:53-72 | no product is shown in two regions, and a product of an unknown category is shown in none |
| Shelves.DisplayCount | script.js:53-72 | the cards shown plus the products dropped number exactly the input products |
| Shelves.DisplayIgnoresPrevious | script.js:49-50 | because the regions are cleared first, the rendering does not depend on what was shown before |
| Shelves.DisplayReplaces | script.js:43-73 | rendering twice is not additive: the second call's products replace the first's |
| Shelves.DisplayOnePerCategory | script.js:53-72 | one product per known category plus one of an unknown category fills each region with one card and drops the last |
| Cart.ReadCart | script.js:157 | a store without the cart key reads as the empty cart |
| Cart.AddToCart | script.js:4-9 | the cart key is present afterwards; the stored list is the previous list (empty if the key was absent) with `{title, price}` appended; the previous entries and all other keys are unchanged |
| Cart.ClearCart | script.js:180-183 | the key is removed, a read yields the empty list, and all other keys are unchanged |
| Cart.AddAllAppends | script.js:5-7 | a run of adds appends exactly the added entries, in click order, after the existing entries |
| Cart.AddToEmpty | script.js:5-7 | adding to an empty store and reading back yields exactly the one entry |
| Cart.AddTwiceKeepsDuplicates | script.js:5-7 | adding the same product twice yields two identical entries; nothing is merged |
| Cart.ClearThenAdd | script.js:155-183 | after clearing, a read yields `[]` whatever the previous contents, and a new add yields a one-entry cart |
| Page.ApplyFilters | script.js:107-123 | a failed catalog request leaves every region unchanged; on success each region holds exactly the fetched products that pass the search, the price bounds and its category, in catalog order |
| Page.ShownRegion | script.js:116-118 | after filtering, a region holds the catalog filtered once by the three tests together |
| Page.FailedFetchKeepsDisplay | script.js:119-122 | whatever the filter fields hold, a failed request changes no region |
| Page.BlankFiltersShowAll | script.js:110-118 | with all three fields blank, filtering renders the whole catalog, the same as rendering it unfiltered |

## Left out

- `fetchProducts`, the initial load and `clearFilters` (script.js:12-22, 126-148): these are network I/O behind `await`. `Page.ApplyFilters` takes the outcome of the request as a parameter instead.
- `createProductCard`, `showDetails`, the cart-page HTML, `initCartPage`, the alerts and the event wiring (script.js:25-40, 151-153, 159-176, 186-201): these are presentation only. A region holds the products whose cards it would show.
- `parseFloat` and IEEE doubles: a bound arrives already parsed, as `Option<real>`, and prices are exact reals. `NaN` product prices, infinities and float rounding are not modelled.
- JSON serialisation of the cart: the store maps a key to the decoded list. A stored value that is not valid JSON, on which the script throws, has no counterpart.
- Falsy JSON values under the cart key (`null`, `false`, `0`, `""`), which read as `[]` at script.js:157: the decoded-list store cannot hold them, and the script never writes them.
- `toFixed(2)` price formatting (script.js:170): this is string presentation.
- Two browser tabs overwriting each other's cart: concurrency outside the script.
- Text.Lower: maps only the ASCII capitals A-Z, because JavaScript's `toLowerCase` applies the full Unicode case mapping, which is not modelled. Titles and terms with non-ASCII capitals may therefore match differently.
- Catalog.Product: `description` and `image` are carried but never read by the modelled code.
