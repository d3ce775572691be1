/** `ProductController::index`: the WHERE list built from the request by a
    chain of `when` calls, newest first by `created_at`, ten to a page, with
    the active categories and the echoed filter parameters. */
module ProductListing {
  import opened Basics
  import opened Records
  import opened Seqs
  import opened QueryBuilder
  import opened Http

  const FilterKeys: set<string> := {"search", "category", "status", "low_stock"}

  /** `description LIKE '%t%'`; a NULL description never matches. */
  predicate DescriptionContains(p: Product, t: string) {
    p.description.Some? && Contains(p.description.value, t)
  }

  /** `category_id = c`: the parameter read as a decimal number. */
  predicate CategoryMatches(p: Product, c: string) {
    ParseNat(c) == Some(p.categoryId)
  }

  /** The clauses the search adds: three top-level clauses joined by OR. */
  function SearchWheres(req: Request): seq<Where<Product>> {
    if Filled(req, "search") then
      var t := req["search"];
      [ Where(And, (p: Product) => Contains(p.name, t)),
        Where(Or, (p: Product) => Contains(p.sku, t)),
        Where(Or, (p: Product) => DescriptionContains(p, t)) ]
    else []
  }

  /** ... then one AND clause for the category ... */
  function CategoryWheres(req: Request): seq<Where<Product>> {
    if Filled(req, "category") then
      var c := req["category"];
      SearchWheres(req) + [Where(And, (p: Product) => CategoryMatches(p, c))]
    else SearchWheres(req)
  }

  /** ... and one AND clause for the status. */
  function FilterWheres(req: Request): seq<Where<Product>> {
    if Filled(req, "status") then
      var s := req["status"];
      CategoryWheres(req) + [Where(And, (p: Product) => ActivityName(p.status) == s)]
    else CategoryWheres(req)
  }

  /** The clauses in the order the `when` calls add them; `low_stock` then
      calls the `lowStock` scope on them. */
  function ProductWheres(req: Request): seq<Where<Product>> {
    if Filled(req, "low_stock") then ApplyScope(FilterWheres(req), [Where(And, IsLowStock)])
    else FilterWheres(req)
  }

  /** The predicate those clauses amount to. Because AND binds tighter than
      OR, the category and status filters constrain only the description
      branch of the search, so a name or sku match passes them by. The scope
      call parenthesises everything before it, so the low-stock filter
      constrains every row. An unfilled parameter constrains nothing. */
  predicate Kept(req: Request, p: Product) {
    var category := !Filled(req, "category") || CategoryMatches(p, req["category"]);
    var status := !Filled(req, "status") || ActivityName(p.status) == req["status"];
    var low := !Filled(req, "low_stock") || IsLowStock(p);
    var rest := category && status;
    (if Filled(req, "search") then
       var t := req["search"];
       Contains(p.name, t) || Contains(p.sku, t) || (DescriptionContains(p, t) && rest)
     else rest)
    && low
  }

  /** The search, category and status clauses, before the scope call. */
  lemma SearchAndFilters(req: Request, p: Product)
    ensures Holds(FilterWheres(req), p) <==> Kept(req - {"low_stock"}, p)
  {
    var r := req - {"low_stock"};
    assert Filled(r, "search") == Filled(req, "search");
    assert Filled(r, "category") == Filled(req, "category");
    assert Filled(r, "status") == Filled(req, "status");
    assert !Filled(r, "low_stock");
    var bySearch, byCategory := SearchWheres(req), CategoryWheres(req);
    if Filled(req, "search") {
      var t := req["search"];
      assert bySearch[..2] == bySearch[..|bySearch| - 1][..2];
      assert ScanWheres(bySearch, p) ==
        Scan(Contains(p.name, t) || Contains(p.sku, t), DescriptionContains(p, t));
      if Filled(req, "category") {
        ScanSnoc(bySearch, byCategory[|byCategory| - 1], p);
      }
      if Filled(req, "status") {
        ScanSnoc(byCategory, Where(And, (p: Product) => ActivityName(p.status) == req["status"]), p);
      }
    } else if Filled(req, "category") {
      assert byCategory == [Where(And, (p: Product) => CategoryMatches(p, req["category"]))];
      if Filled(req, "status") {
        ScanSnoc(byCategory, Where(And, (p: Product) => ActivityName(p.status) == req["status"]), p);
      }
    }
  }

  /** What the built WHERE clause admits, both directions. */
  lemma ProductWheresMeaning(req: Request, p: Product)
    ensures Holds(ProductWheres(req), p) <==> Kept(req, p)
  {
    SearchAndFilters(req, p);
    var r := req - {"low_stock"};
    assert Kept(req, p) <==> Kept(r, p) && (!Filled(req, "low_stock") || IsLowStock(p));
    if Filled(req, "low_stock") {
      ScopeConjoins(FilterWheres(req), [Where(And, IsLowStock)], p);
      assert Holds([Where(And, IsLowStock)], p) == IsLowStock(p);
    }
  }

  /** The listing before pagination: the kept products, newest first. */
  function ProductResult(products: seq<Product>, req: Request): (r: seq<Product>)
    ensures SortedDesc(r, (p: Product) => Instant(p.createdAt))
    ensures multiset(r) <= multiset(products)
    ensures forall p :: p in r <==> p in products && Kept(req, p)
  {
    var wheres := ProductWheres(req);
    var kept := Filter(products, (p: Product) => Holds(wheres, p));
    var r := SortDesc(kept, (p: Product) => Instant(p.createdAt));
    assert forall p :: p in r <==> p in kept by {
      forall p ensures p in r <==> p in kept {
        assert p in r <==> p in multiset(r);
      }
    }
    assert forall p :: p in kept <==> p in products && Kept(req, p) by {
      forall p ensures p in kept <==> p in products && Kept(req, p) {
        ProductWheresMeaning(req, p);
      }
    }
    FilterSubMultiset(products, (p: Product) => Holds(wheres, p));
    r
  }

  datatype ProductIndexView = ProductIndexView(products: Page<Product>, categories: seq<Category>, filters: Request)

  /** `Category::active()->get()`: the categories offered by the filter. */
  function ActiveCategories(categories: seq<Category>): (r: seq<Category>)
    ensures forall c :: c in r <==> c in categories && c.status == Active
  {
    Filter(categories, (c: Category) => c.status == Active)
  }

  /** `ProductController::index` on the given tables and query string. */
  function ProductIndex(products: seq<Product>, categories: seq<Category>, req: Request, page: Option<int>): (v: ProductIndexView)
    ensures v.products == Paginate(ProductResult(products, req), page)
    ensures v.products.total == |ProductResult(products, req)|
    ensures v.categories == ActiveCategories(categories)
    ensures v.filters == Only(req, FilterKeys)
  {
    ProductIndexView(Paginate(ProductResult(products, req), page), ActiveCategories(categories), Only(req, FilterKeys))
  }

  /** With no filter parameter filled, the listing is every product, newest
      first: page n holds rows 10(n-1) to 10n of that order and the total is
      the size of the table. */
  lemma UnfilteredIndex(products: seq<Product>, categories: seq<Category>, req: Request, n: int)
    requires forall k :: k in FilterKeys ==> !Filled(req, k)
    requires n >= 1
    ensures var page := ProductIndex(products, categories, req, Some(n)).products;
            var all := SortDesc(products, (p: Product) => Instant(p.createdAt));
            && page.total == |products|
            && page.data == all[Min(|products|, 10 * (n - 1))..Min(|products|, 10 * n)]
  {
    var all := SortDesc(products, (p: Product) => Instant(p.createdAt));
    var v := ProductIndex(products, categories, req, Some(n));
    UnfilteredResult(products, req);
    PageNumbered(all, n);
  }

  lemma UnfilteredResult(products: seq<Product>, req: Request)
    requires forall k :: k in FilterKeys ==> !Filled(req, k)
    ensures ProductResult(products, req) == SortDesc(products, (p: Product) => Instant(p.createdAt))
  {
    assert !Filled(req, "search") && !Filled(req, "category") && !Filled(req, "status") && !Filled(req, "low_stock");
    assert ProductWheres(req) == [];
    FilterAll(products, (p: Product) => Holds(ProductWheres(req), p));
  }

  /** A filter parameter that is empty or "0" acts as if it were absent. */
  lemma FalsyParameterIgnored(products: seq<Product>, req: Request, key: string, v: string)
    requires key in FilterKeys && (v == "" || v == "0")
    ensures ProductResult(products, req[key := v]) == ProductResult(products, req - {key})
  {
    var r1, r2 := req[key := v], req - {key};
    forall k | k in FilterKeys ensures Filled(r1, k) == Filled(r2, k) && (Filled(r1, k) ==> r1[k] == r2[k]) {
    }
    forall i | 0 <= i < |products|
      ensures Holds(ProductWheres(r1), products[i]) == Holds(ProductWheres(r2), products[i])
    {
      ProductWheresMeaning(r1, products[i]);
      ProductWheresMeaning(r2, products[i]);
    }
    FilterExtensional(products, (p: Product) => Holds(ProductWheres(r1), p), (p: Product) => Holds(ProductWheres(r2), p));
  }

  /** The low-stock filter alone keeps exactly the products at or below
      their minimum stock level. */
  lemma LowStockFilter(req: Request, p: Product)
    requires Filled(req, "low_stock")
    requires !Filled(req, "search") && !Filled(req, "category") && !Filled(req, "status")
    ensures Holds(ProductWheres(req), p) <==> p.quantity <= p.minStockLevel
  {
    ProductWheresMeaning(req, p);
  }

  /** The category filter alone keeps exactly the products of that
      category, and the status filter alone exactly those of that status. */
  lemma EqualityFilters(req: Request, p: Product)
    requires !Filled(req, "search") && !Filled(req, "low_stock")
    ensures Filled(req, "category") && !Filled(req, "status") ==>
              (Holds(ProductWheres(req), p) <==> ParseNat(req["category"]) == Some(p.categoryId))
    ensures Filled(req, "status") && !Filled(req, "category") ==>
              (Holds(ProductWheres(req), p) <==> ActivityName(p.status) == req["status"])
  {
    ProductWheresMeaning(req, p);
  }

  /** A name match passes the category and status filters by, but not the
      low-stock filter. */
  lemma NameMatchBypassesFilters(req: Request, p: Product)
    requires Filled(req, "search") && Contains(p.name, req["search"])
    ensures Holds(ProductWheres(req), p) <==> !Filled(req, "low_stock") || IsLowStock(p)
  {
    ProductWheresMeaning(req, p);
  }
}
