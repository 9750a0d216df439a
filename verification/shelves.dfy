/**
 * The category `switch` of `displayProducts` and `clearProducts`: four display
 * regions, each holding, in input order, the products of one category.
 */
module Shelves {
  import opened Wrappers
  import opened Text
  import opened Seqs
  import opened Catalog

  /** The four display regions. `Jewelery` keeps the catalog's own spelling. */
  datatype Category = Electronics | Jewelery | MensClothing | WomensClothing

  /** The lower-case label a category string must equal to land in a region. */
  function Label(c: Category): string
  {
    match c
    case Electronics => "electronics"
    case Jewelery => "jewelery"
    case MensClothing => "men's clothing"
    case WomensClothing => "women's clothing"
  }

  /** The `switch` on `product.category.toLowerCase()`; `None` is the `default` branch. */
  function Classify(category: string): (r: Option<Category>)
    ensures forall c :: r == Some(c) <==> Lower(category) == Label(c)
  {
    var key := Lower(category);
    if key == "electronics" then Some(Electronics)
    else if key == "jewelery" then Some(Jewelery)
    else if key == "men's clothing" then Some(MensClothing)
    else if key == "women's clothing" then Some(WomensClothing)
    else None
  }

  /** Whether `p` belongs in region `c`. */
  predicate InCategory(c: Category, p: Product)
  {
    Classify(p.category) == Some(c)
  }

  /** Region membership as an element test. */
  function CategoryTest(c: Category): Product -> bool
  {
    p => InCategory(c, p)
  }

  /** The content of the four regions, each a sequence of product cards. */
  datatype Shelves = Shelves(electronics: seq<Product>, jewelery: seq<Product>,
                             mensClothing: seq<Product>, womensClothing: seq<Product>)
  {
    /** The region for category `c`. */
    function Region(c: Category): seq<Product>
    {
      match c
      case Electronics => electronics
      case Jewelery => jewelery
      case MensClothing => mensClothing
      case WomensClothing => womensClothing
    }

    /** `appendChild` of `p`'s card to region `c`. */
    function Append(c: Category, p: Product): (r: Shelves)
      ensures r.Region(c) == Region(c) + [p]
      ensures forall d :: d != c ==> r.Region(d) == Region(d)
    {
      match c
      case Electronics => this.(electronics := electronics + [p])
      case Jewelery => this.(jewelery := jewelery + [p])
      case MensClothing => this.(mensClothing := mensClothing + [p])
      case WomensClothing => this.(womensClothing := womensClothing + [p])
    }
  }

  /** `clearProducts`: whatever the regions held, they end up empty. */
  function ClearProducts(shelves: Shelves): (r: Shelves)
    ensures forall c :: r.Region(c) == []
  {
    Shelves([], [], [], [])
  }

  /** One step of the `forEach`: the product's card goes to its region, or nowhere. */
  function Place(shelves: Shelves, p: Product): (r: Shelves)
  {
    match Classify(p.category)
    case Some(c) => shelves.Append(c, p)
    case None => shelves
  }

  /** The `forEach` over `products`, appending each card after what the regions already hold. */
  function PlaceAll(shelves: Shelves, products: seq<Product>): Shelves
    decreases |products|
  {
    if products == [] then shelves else PlaceAll(Place(shelves, products[0]), products[1..])
  }

  /** Placing a sequence of products appends to each region exactly the products of its category, in order. */
  lemma {:induction false} PlaceAllRegion(shelves: Shelves, products: seq<Product>, c: Category)
    ensures PlaceAll(shelves, products).Region(c) == shelves.Region(c) + Filter(products, CategoryTest(c))
    decreases |products|
  {
    if products != [] {
      var p := products[0];
      var rest := Filter(products[1..], CategoryTest(c));
      var next := Place(shelves, p);
      PlaceAllRegion(next, products[1..], c);
      if InCategory(c, p) {
        assert Filter(products, CategoryTest(c)) == [p] + rest;
        assert next.Region(c) == shelves.Region(c) + [p];
      } else {
        assert Filter(products, CategoryTest(c)) == rest;
        assert next.Region(c) == shelves.Region(c);
      }
    }
  }

  /**
   * `displayProducts`: clear the regions, then place every product. Each region
   * ends up holding exactly the products of its category, in input order.
   */
  function DisplayProducts(shelves: Shelves, products: seq<Product>): (r: Shelves)
    ensures forall c :: ExactFilter(r.Region(c), products, CategoryTest(c))
  {
    var r := PlaceAll(ClearProducts(shelves), products);
    forall c
      ensures ExactFilter(r.Region(c), products, CategoryTest(c))
    {
      var kept := Filter(products, CategoryTest(c));
      PlaceAllRegion(ClearProducts(shelves), products, c);
      assert [] + kept == kept;
      assert r.Region(c) == kept;
      FilterIsExact(products, CategoryTest(c));
    }
    r
  }

  /** Products whose category matches no region, as an element test. */
  function UnclassifiedTest(): Product -> bool
  {
    (p: Product) => Classify(p.category).None?
  }

  /** The number of cards across all four regions. */
  function CardCount(shelves: Shelves): nat
  {
    |shelves.electronics| + |shelves.jewelery| + |shelves.mensClothing| + |shelves.womensClothing|
  }

  /** Each label routes to its own region, so no two regions share a label. */
  lemma ClassifyLabel(c: Category)
    ensures Classify(Label(c)) == Some(c)
  {
    match c
    case Electronics => LowerNoUpper("electronics");
    case Jewelery => LowerNoUpper("jewelery");
    case MensClothing => LowerNoUpper("men's clothing");
    case WomensClothing => LowerNoUpper("women's clothing");
  }

  /** Any other category is dropped, including the correctly spelled "jewelry". */
  lemma ClassifyDrops()
    ensures Classify("toys") == None
    ensures Classify("jewelry") == None
  {
    LowerNoUpper("toys");
    LowerNoUpper("jewelry");
  }

  /** A product is shown in region `c` exactly when it is in the input and its category maps to `c`. */
  lemma DisplayMembers(shelves: Shelves, products: seq<Product>, c: Category, p: Product)
    ensures p in DisplayProducts(shelves, products).Region(c) <==> p in products && Classify(p.category) == Some(c)
  {
    ExactFilterMembers(DisplayProducts(shelves, products).Region(c), products, CategoryTest(c), p);
  }

  /** No product is shown in two regions, and a product of an unknown category is shown in none. */
  lemma DisplayPartitions(shelves: Shelves, products: seq<Product>, p: Product)
    ensures forall c, d ::
      (p in DisplayProducts(shelves, products).Region(c) && p in DisplayProducts(shelves, products).Region(d)) ==> c == d
    ensures Classify(p.category).None? ==> forall c :: p !in DisplayProducts(shelves, products).Region(c)
  {
    forall c
      ensures p in DisplayProducts(shelves, products).Region(c) <==> p in products && Classify(p.category) == Some(c)
    {
      DisplayMembers(shelves, products, c, p);
    }
  }

  /** Every input product is either shown once or dropped: the card count plus the dropped count is the input length. */
  lemma {:induction false} PlaceAllCount(shelves: Shelves, products: seq<Product>)
    ensures CardCount(PlaceAll(shelves, products)) + |Filter(products, UnclassifiedTest())|
         == CardCount(shelves) + |products|
    decreases |products|
  {
    if products != [] {
      var p := products[0];
      var dropped := Filter(products[1..], UnclassifiedTest());
      PlaceAllCount(Place(shelves, p), products[1..]);
      match Classify(p.category)
      case None =>
        assert Filter(products, UnclassifiedTest()) == [p] + dropped;
      case Some(c) =>
        assert Filter(products, UnclassifiedTest()) == dropped;
        assert CardCount(shelves.Append(c, p)) == CardCount(shelves) + 1;
    }
  }

  /** The rendered card count plus the number of dropped products equals the number of products. */
  lemma DisplayCount(shelves: Shelves, products: seq<Product>)
    ensures CardCount(DisplayProducts(shelves, products)) + |Filter(products, UnclassifiedTest())| == |products|
  {
    PlaceAllCount(ClearProducts(shelves), products);
  }

  /** What is displayed depends only on the current products, never on what was shown before. */
  lemma {:induction false} DisplayIgnoresPrevious(before: Shelves, other: Shelves, products: seq<Product>)
    ensures DisplayProducts(before, products) == DisplayProducts(other, products)
  {
    var r1 := DisplayProducts(before, products);
    var r2 := DisplayProducts(other, products);
    forall c
      ensures r1.Region(c) == r2.Region(c)
    {
      ExactFilterUnique(r1.Region(c), products, CategoryTest(c));
      ExactFilterUnique(r2.Region(c), products, CategoryTest(c));
    }
    assert r1.Region(Electronics) == r2.Region(Electronics);
    assert r1.Region(Jewelery) == r2.Region(Jewelery);
    assert r1.Region(MensClothing) == r2.Region(MensClothing);
    assert r1.Region(WomensClothing) == r2.Region(WomensClothing);
  }

  /** Displaying twice is not additive: the second call's products replace the first call's. */
  lemma DisplayReplaces(shelves: Shelves, first: seq<Product>, second: seq<Product>)
    ensures DisplayProducts(DisplayProducts(shelves, first), second) == DisplayProducts(shelves, second)
  {
    DisplayIgnoresPrevious(DisplayProducts(shelves, first), shelves, second);
  }

  /** One product per known category plus one of an unknown category: each region shows one card, the last is dropped. */
  lemma DisplayOnePerCategory(shelves: Shelves, e: Product, j: Product, m: Product, w: Product, t: Product)
    requires InCategory(Electronics, e) && InCategory(Jewelery, j)
    requires InCategory(MensClothing, m) && InCategory(WomensClothing, w)
    requires Classify(t.category).None?
    ensures DisplayProducts(shelves, [e, j, m, w, t]) == Shelves([e], [j], [m], [w])
  {
    var products := [e, j, m, w, t];
    var s0 := ClearProducts(shelves);
    var s1 := Place(s0, e);
    var s2 := Place(s1, j);
    var s3 := Place(s2, m);
    var s4 := Place(s3, w);
    assert s4 == Shelves([e], [j], [m], [w]);
    assert Place(s4, t) == s4;
    assert PlaceAll(s4, products[4..]) == s4;
    assert PlaceAll(s3, products[3..]) == PlaceAll(s4, products[4..]);
    assert PlaceAll(s2, products[2..]) == PlaceAll(s3, products[3..]);
    assert PlaceAll(s1, products[1..]) == PlaceAll(s2, products[2..]);
  }
}
