/** `SaleController::index`: sales whose number or customer's name contains
    the search text, optionally of one status, latest `sale_date` first, ten
    to a page, with the echoed filter parameters. */
module SaleListing {
  import opened Basics
  import opened Records
  import opened Seqs
  import opened QueryBuilder
  import opened Http

  const FilterKeys: set<string> := {"search", "status"}

  /** `orWhereHas('customer', name LIKE '%t%')`: the sale's customer row
      exists and its name contains `t`. */
  predicate CustomerNameContains(customers: seq<Customer>, s: Sale, t: string) {
    exists k :: 0 <= k < |customers| && customers[k].id == s.header.customerId && Contains(customers[k].name, t)
  }

  /** The clauses in the order the `when` calls add them: the search adds an
      AND clause on the number and an OR clause on the customer; the status
      adds one AND clause. */
  function SaleWheres(customers: seq<Customer>, req: Request): seq<Where<Sale>> {
    var bySearch :=
      if Filled(req, "search") then
        var t := req["search"];
        [ Where(And, (s: Sale) => Contains(s.saleNumber, t)),
          Where(Or, (s: Sale) => CustomerNameContains(customers, s, t)) ]
      else [];
    if Filled(req, "status") then
      var st := req["status"];
      bySearch + [Where(And, (s: Sale) => SaleStatusName(s.header.status) == st)]
    else bySearch
  }

  /** The predicate those clauses amount to: AND binds tighter than OR, so
      the status filter constrains only the customer-name branch and a sale
      whose number matches is listed whatever its status. */
  predicate Kept(customers: seq<Customer>, req: Request, s: Sale) {
    var status := !Filled(req, "status") || SaleStatusName(s.header.status) == req["status"];
    if Filled(req, "search") then
      var t := req["search"];
      Contains(s.saleNumber, t) || (CustomerNameContains(customers, s, t) && status)
    else status
  }

  /** What the built WHERE clause admits, both directions. */
  lemma SaleWheresMeaning(customers: seq<Customer>, req: Request, s: Sale)
    ensures Holds(SaleWheres(customers, req), s) <==> Kept(customers, req, s)
  {
    if Filled(req, "search") {
      var t := req["search"];
      var bySearch := [ Where(And, (s: Sale) => Contains(s.saleNumber, t)),
                        Where(Or, (s: Sale) => CustomerNameContains(customers, s, t)) ];
      assert bySearch[..1] == [bySearch[0]];
      if Filled(req, "status") {
        ScanSnoc(bySearch, Where(And, (s: Sale) => SaleStatusName(s.header.status) == req["status"]), s);
      }
    }
  }

  /** The listing before pagination: the kept sales, latest first. */
  function SaleResult(sales: seq<Sale>, customers: seq<Customer>, req: Request): (r: seq<Sale>)
    ensures SortedDesc(r, (s: Sale) => Instant(s.header.saleDate))
    ensures multiset(r) <= multiset(sales)
    ensures forall s :: s in r <==> s in sales && Kept(customers, req, s)
  {
    var wheres := SaleWheres(customers, req);
    var kept := Filter(sales, (s: Sale) => Holds(wheres, s));
    var r := SortDesc(kept, (s: Sale) => Instant(s.header.saleDate));
    assert forall s :: s in r <==> s in kept by {
      forall s ensures s in r <==> s in kept {
        assert s in r <==> s in multiset(r);
      }
    }
    assert forall s :: s in kept <==> s in sales && Kept(customers, req, s) by {
      forall s ensures s in kept <==> s in sales && Kept(customers, req, s) {
        SaleWheresMeaning(customers, req, s);
      }
    }
    FilterSubMultiset(sales, (s: Sale) => Holds(wheres, s));
    r
  }

  datatype SaleIndexView = SaleIndexView(sales: Page<Sale>, filters: Request)

  /** `SaleController::index` on the given tables and query string. */
  function SaleIndex(sales: seq<Sale>, customers: seq<Customer>, req: Request, page: Option<int>): (v: SaleIndexView)
    ensures v.sales == Paginate(SaleResult(sales, customers, req), page)
    ensures v.filters == Only(req, FilterKeys)
  {
    SaleIndexView(Paginate(SaleResult(sales, customers, req), page), Only(req, FilterKeys))
  }

  /** A sale whose number contains the search text is listed whatever the
      status filter says. */
  lemma NumberMatchBypassesStatus(customers: seq<Customer>, req: Request, s: Sale)
    requires Filled(req, "search") && Contains(s.saleNumber, req["search"])
    ensures Holds(SaleWheres(customers, req), s)
  {
    SaleWheresMeaning(customers, req, s);
  }

  /** Without a search, the status filter keeps exactly the sales of that status. */
  lemma StatusFilter(customers: seq<Customer>, req: Request, s: Sale)
    requires !Filled(req, "search") && Filled(req, "status")
    ensures Holds(SaleWheres(customers, req), s) <==> SaleStatusName(s.header.status) == req["status"]
  {
    SaleWheresMeaning(customers, req, s);
  }

  /** A status value naming no status, without a search, lists nothing. */
  lemma UnknownStatusListsNothing(sales: seq<Sale>, customers: seq<Customer>, req: Request)
    requires !Filled(req, "search") && Filled(req, "status")
    requires req["status"] !in {"pending", "completed", "cancelled"}
    ensures SaleResult(sales, customers, req) == []
  {
    forall s: Sale ensures SaleStatusName(s.header.status) in {"pending", "completed", "cancelled"} {
    }
  }

  /** A search or status value that is empty or "0" acts as if it were absent. */
  lemma FalsyParameterIgnored(sales: seq<Sale>, customers: seq<Customer>, req: Request, key: string, v: string)
    requires key in FilterKeys && (v == "" || v == "0")
    ensures SaleResult(sales, customers, req[key := v]) == SaleResult(sales, customers, req - {key})
  {
    var r1, r2 := req[key := v], req - {key};
    forall k | k in FilterKeys ensures Filled(r1, k) == Filled(r2, k) && (Filled(r1, k) ==> r1[k] == r2[k]) {
    }
    forall i | 0 <= i < |sales|
      ensures Holds(SaleWheres(customers, r1), sales[i]) == Holds(SaleWheres(customers, r2), sales[i])
    {
      SaleWheresMeaning(customers, r1, sales[i]);
      SaleWheresMeaning(customers, r2, sales[i]);
    }
    FilterExtensional(sales, (s: Sale) => Holds(SaleWheres(customers, r1), s), (s: Sale) => Holds(SaleWheres(customers, r2), s));
  }
}
