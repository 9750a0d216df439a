/**
 * The catalog page's filter action, `applyFilters`: fetch the catalog, run the
 * filter pipeline, re-render. The network request is not modelled; its
 * outcome is a parameter.
 */
module Page {
  import opened Wrappers
  import opened Seqs
  import opened Catalog
  import opened Shelves

  /** The one failure the catalog request reports: a non-success status or an undecodable body. */
  datatype FetchError = FetchError

  /** A product is shown in region `c` after filtering when it passes the search, the price bounds and the category switch. */
  function ShownTest(term: string, minPrice: Option<real>, maxPrice: Option<real>, c: Category): Product -> bool
  {
    Both(Both(SearchTest(term), PriceTest(minPrice, maxPrice)), CategoryTest(c))
  }

  /**
   * `applyFilters` given the outcome of the catalog request. On failure the
   * user is alerted and the regions keep what they showed; on success each
   * region shows exactly the fetched products that pass all three tests, in
   * catalog order.
   */
  function ApplyFilters(shelves: Shelves, fetched: Result<seq<Product>, FetchError>,
                        term: string, minPrice: Option<real>, maxPrice: Option<real>): (r: Shelves)
    ensures fetched.Failure? ==> r == shelves
    ensures fetched.Success? ==> forall c :: ExactFilter(r.Region(c), fetched.value, ShownTest(term, minPrice, maxPrice, c))
  {
    match fetched
    case Failure(_) => shelves
    case Success(products) =>
      var filtered := Pipeline(products, term, minPrice, maxPrice);
      var r := DisplayProducts(shelves, filtered);
      forall c
        ensures ExactFilter(r.Region(c), products, ShownTest(term, minPrice, maxPrice, c))
      {
        ShownRegion(shelves, products, term, minPrice, maxPrice, c);
        FilterIsExact(products, ShownTest(term, minPrice, maxPrice, c));
      }
      r
  }

  /** After filtering, region `c` holds the catalog filtered once by the three tests together. */
  lemma ShownRegion(shelves: Shelves, products: seq<Product>, term: string,
                    minPrice: Option<real>, maxPrice: Option<real>, c: Category)
    ensures DisplayProducts(shelves, Pipeline(products, term, minPrice, maxPrice)).Region(c)
         == Filter(products, ShownTest(term, minPrice, maxPrice, c))
  {
    var passes := Both(SearchTest(term), PriceTest(minPrice, maxPrice));
    var filtered := Pipeline(products, term, minPrice, maxPrice);
    ExactFilterUnique(filtered, products, passes);
    ExactFilterUnique(DisplayProducts(shelves, filtered).Region(c), filtered, CategoryTest(c));
    FilterFilter(products, passes, CategoryTest(c));
  }

  /** A failed request leaves every region as it was, whatever the filter fields hold. */
  lemma FailedFetchKeepsDisplay(shelves: Shelves, term: string, minPrice: Option<real>, maxPrice: Option<real>)
    ensures ApplyFilters(shelves, Failure(FetchError), term, minPrice, maxPrice) == shelves
  {
  }

  /** With blank fields, filtering shows the whole catalog, the same as rendering it unfiltered. */
  lemma BlankFiltersShowAll(shelves: Shelves, products: seq<Product>)
    ensures ApplyFilters(shelves, Success(products), "", None, None) == DisplayProducts(shelves, products)
  {
    UnfilteredPipelineIsIdentity(products, "");
  }
}
