/**
 * Products and the two client-side filters of the catalog page: the
 * free-text title search and the inclusive price range, composed search first.
 */
module Catalog {
  import opened Wrappers
  import opened Text
  import opened Seqs

  /** A catalog record as the remote API delivers it; prices are exact decimals. */
  datatype Product = Product(title: string, price: real, description: string, image: string, category: string)

  /** The search term as the filter uses it: trimmed, then lower-cased. */
  function NormalizeTerm(term: string): (t: string)
    ensures t == [] <==> forall i :: 0 <= i < |term| ==> IsWhitespace(term[i])
    ensures forall i :: 0 <= i < |t| ==> !IsUpper(t[i])
  {
    Lower(Trim(term))
  }

  /** Whether the search for `term` lets `p` through. A blank term lets everything through. */
  predicate MatchesTerm(term: string, p: Product)
  {
    var t := NormalizeTerm(term);
    t == [] || Contains(Lower(p.title), t)
  }

  /** Whether `p`'s price lies within the bounds that are present; both are inclusive. */
  predicate InRange(minPrice: Option<real>, maxPrice: Option<real>, p: Product)
  {
    (minPrice.None? || p.price >= minPrice.value) && (maxPrice.None? || p.price <= maxPrice.value)
  }

  /** The search condition as an element test. */
  function SearchTest(term: string): Product -> bool
  {
    p => MatchesTerm(term, p)
  }

  /** The price condition as an element test. */
  function PriceTest(minPrice: Option<real>, maxPrice: Option<real>): Product -> bool
  {
    p => InRange(minPrice, maxPrice, p)
  }

  /** `filterBySearchTerm`: the products whose lower-cased title includes the normalised term. */
  function FilterBySearchTerm(products: seq<Product>, term: string): (r: seq<Product>)
    ensures NormalizeTerm(term) == [] ==> r == products
    ensures ExactFilter(r, products, SearchTest(term))
  {
    var t := NormalizeTerm(term);
    FilterIsExact(products, SearchTest(term));
    if t == [] then
      FilterAllKept(products, SearchTest(term));
      products
    else
      var includesTerm := (p: Product) => Contains(Lower(p.title), t);
      SameFilter(products, includesTerm, SearchTest(term));
      Filter(products, includesTerm)
  }

  /** `filterByPriceRange`: the products whose price lies within the bounds that parsed. */
  function FilterByPriceRange(products: seq<Product>, minPrice: Option<real>, maxPrice: Option<real>): (r: seq<Product>)
    ensures minPrice.None? && maxPrice.None? ==> r == products
    ensures ExactFilter(r, products, PriceTest(minPrice, maxPrice))
  {
    FilterIsExact(products, PriceTest(minPrice, maxPrice));
    if minPrice.None? && maxPrice.None? then
      FilterAllKept(products, PriceTest(minPrice, maxPrice));
      products
    else
      Filter(products, PriceTest(minPrice, maxPrice))
  }

  /** The filter composition of `applyFilters`: search first, then price. */
  function Pipeline(products: seq<Product>, term: string, minPrice: Option<real>, maxPrice: Option<real>): (r: seq<Product>)
    ensures ExactFilter(r, products, Both(SearchTest(term), PriceTest(minPrice, maxPrice)))
  {
    PipelineIsOneFilter(products, term, minPrice, maxPrice);
    FilterIsExact(products, Both(SearchTest(term), PriceTest(minPrice, maxPrice)));
    FilterByPriceRange(FilterBySearchTerm(products, term), minPrice, maxPrice)
  }

  /** The search-then-price pipeline is a single stable filter by both conditions. */
  lemma PipelineIsOneFilter(products: seq<Product>, term: string, minPrice: Option<real>, maxPrice: Option<real>)
    ensures FilterByPriceRange(FilterBySearchTerm(products, term), minPrice, maxPrice)
         == Filter(products, Both(SearchTest(term), PriceTest(minPrice, maxPrice)))
  {
    var byTerm := FilterBySearchTerm(products, term);
    ExactFilterUnique(byTerm, products, SearchTest(term));
    ExactFilterUnique(FilterByPriceRange(byTerm, minPrice, maxPrice), byTerm, PriceTest(minPrice, maxPrice));
    FilterFilter(products, SearchTest(term), PriceTest(minPrice, maxPrice));
  }

  /** Searching and price filtering commute: applying them in the other order changes nothing. */
  lemma FiltersCommute(products: seq<Product>, term: string, minPrice: Option<real>, maxPrice: Option<real>)
    ensures FilterBySearchTerm(FilterByPriceRange(products, minPrice, maxPrice), term)
         == Pipeline(products, term, minPrice, maxPrice)
  {
    var byPrice := FilterByPriceRange(products, minPrice, maxPrice);
    ExactFilterUnique(byPrice, products, PriceTest(minPrice, maxPrice));
    ExactFilterUnique(FilterBySearchTerm(byPrice, term), byPrice, SearchTest(term));
    FilterFilter(products, PriceTest(minPrice, maxPrice), SearchTest(term));
    PipelineIsOneFilter(products, term, minPrice, maxPrice);
    SameFilter(products, Both(PriceTest(minPrice, maxPrice), SearchTest(term)),
      Both(SearchTest(term), PriceTest(minPrice, maxPrice)));
  }

  /** With a blank search term and no parsable bound the pipeline shows the whole catalog. */
  lemma UnfilteredPipelineIsIdentity(products: seq<Product>, term: string)
    requires forall i :: 0 <= i < |term| ==> IsWhitespace(term[i])
    ensures Pipeline(products, term, None, None) == products
  {
    PipelineIsOneFilter(products, term, None, None);
  }

  /** A product survives the pipeline exactly when it is in the input, matches the term and is in range. */
  lemma PipelineMembers(products: seq<Product>, term: string, minPrice: Option<real>, maxPrice: Option<real>, p: Product)
    ensures p in Pipeline(products, term, minPrice, maxPrice)
        <==> p in products && MatchesTerm(term, p) && InRange(minPrice, maxPrice, p)
  {
    ExactFilterMembers(Pipeline(products, term, minPrice, maxPrice), products,
      Both(SearchTest(term), PriceTest(minPrice, maxPrice)), p);
  }

  /**
   * A product survives the search exactly when it is in the input and the term
   * is blank or occurs somewhere in its lower-cased title.
   */
  lemma SearchMembers(products: seq<Product>, term: string, p: Product)
    ensures p in FilterBySearchTerm(products, term)
        <==> p in products && (NormalizeTerm(term) == [] || exists i :: OccursAt(Lower(p.title), NormalizeTerm(term), i))
  {
    ExactFilterMembers(FilterBySearchTerm(products, term), products, SearchTest(term), p);
    ContainsOccurs(Lower(p.title), NormalizeTerm(term));
  }
}
