/** The tables as the write actions of `SaleController` and
    `ProductController` change them. Rows are kept in id order, as an
    auto-increment table returns them; each action is one sequential step
    (the source opens no transaction and takes no lock). */
module Ledger {
  import opened Basics
  import opened Records
  import opened Seqs
  import opened Stock

  datatype Failure =
    | NotFound             // route-model binding found no row with that id
    | UnknownCustomer      // the `customer_id` foreign key names no customer
    | DuplicateSaleNumber  // the unique index on `sale_number`
    | DuplicateSku         // the unique index on `sku`

  /** Product ids increase in table order and stay below the next id to be
      handed out; skus are unique. */
  ghost predicate ProductTable(ps: seq<Product>, next: nat) {
    && (forall i, j :: 0 <= i < j < |ps| ==> ps[i].id < ps[j].id)
    && (forall i :: 0 <= i < |ps| ==> ps[i].id < next)
    && (forall i, j :: 0 <= i < j < |ps| ==> ps[i].sku != ps[j].sku)
  }

  /** Sale ids increase in table order and stay below the next id; sale
      numbers are unique. */
  ghost predicate SaleTable(ss: seq<Sale>, next: nat) {
    && (forall i, j :: 0 <= i < j < |ss| ==> ss[i].id < ss[j].id)
    && (forall i :: 0 <= i < |ss| ==> ss[i].id < next)
    && (forall i, j :: 0 <= i < j < |ss| ==> ss[i].saleNumber != ss[j].saleNumber)
  }

  ghost predicate CustomerTable(cs: seq<Customer>) {
    forall i, j :: 0 <= i < j < |cs| ==> cs[i].id != cs[j].id
  }

  function SalePosition(ss: seq<Sale>, id: nat): Option<nat> {
    IndexOfKey(ss, (s: Sale) => s.id, id)
  }

  function ProductPosition(ps: seq<Product>, id: nat): Option<nat> {
    IndexOfKey(ps, (p: Product) => p.id, id)
  }

  predicate NumberTaken(ss: seq<Sale>, number: string) {
    exists k :: 0 <= k < |ss| && ss[k].saleNumber == number
  }

  /** Some product other than the one with id `except` already has this sku. */
  predicate SkuTaken(ps: seq<Product>, sku: string, except: Option<nat>) {
    exists k :: 0 <= k < |ps| && ps[k].sku == sku && Some(ps[k].id) != except
  }

  /** What the store request's validation guarantees of the items: at least
      one, each with a positive quantity and naming an existing product
      (otherwise `Product::find` yields null and the decrement fails). */
  predicate ValidatedItems(xs: seq<ItemRequest>, ps: seq<Product>) {
    && |xs| > 0
    && forall k :: 0 <= k < |xs| ==> xs[k].quantity > 0 && HasProduct(ps, xs[k].productId)
  }

  /** The validated update request: the sale columns it carries. */
  datatype SalePatch = SalePatch(
    customerId: Option<nat>,
    subtotal: Option<Cents>,
    taxAmount: Option<Cents>,
    totalAmount: Option<Cents>,
    status: Option<SaleStatus>,
    notes: Option<Option<string>>,
    saleDate: Option<DateTime>)

  function Pick<T>(o: Option<T>, old_: T): T {
    if o.Some? then o.value else old_
  }

  /** `$sale->update($validated)`: the carried columns take the new values,
      the others keep theirs. */
  function Patched(h: SaleHeader, p: SalePatch): SaleHeader {
    SaleHeader(
      Pick(p.customerId, h.customerId),
      Pick(p.subtotal, h.subtotal),
      Pick(p.taxAmount, h.taxAmount),
      Pick(p.totalAmount, h.totalAmount),
      Pick(p.status, h.status),
      Pick(p.notes, h.notes),
      Pick(p.saleDate, h.saleDate))
  }

  /** A request carrying no column leaves the header as it was. */
  lemma PatchedEmpty(h: SaleHeader)
    ensures Patched(h, SalePatch(None, None, None, None, None, None, None)) == h
  {
  }

  /** Every column the update carries takes the carried value, and every
      column it does not carry keeps its old value. */
  lemma PatchedColumns(h: SaleHeader, p: SalePatch)
    ensures p.customerId.Some? ==> Patched(h, p).customerId == p.customerId.value
    ensures p.customerId.None? ==> Patched(h, p).customerId == h.customerId
    ensures p.subtotal.Some? ==> Patched(h, p).subtotal == p.subtotal.value
    ensures p.subtotal.None? ==> Patched(h, p).subtotal == h.subtotal
    ensures p.taxAmount.Some? ==> Patched(h, p).taxAmount == p.taxAmount.value
    ensures p.taxAmount.None? ==> Patched(h, p).taxAmount == h.taxAmount
    ensures p.totalAmount.Some? ==> Patched(h, p).totalAmount == p.totalAmount.value
    ensures p.totalAmount.None? ==> Patched(h, p).totalAmount == h.totalAmount
    ensures p.status.Some? ==> Patched(h, p).status == p.status.value
    ensures p.status.None? ==> Patched(h, p).status == h.status
    ensures p.notes.Some? ==> Patched(h, p).notes == p.notes.value
    ensures p.notes.None? ==> Patched(h, p).notes == h.notes
    ensures p.saleDate.Some? ==> Patched(h, p).saleDate == p.saleDate.value
    ensures p.saleDate.None? ==> Patched(h, p).saleDate == h.saleDate
  {
  }

  /** Submitting the same update twice is the same as submitting it once,
      and every column the request carries ends up with the value it carries. */
  lemma PatchedIdempotent(h: SaleHeader, p: SalePatch)
    ensures Patched(Patched(h, p), p) == Patched(h, p)
    ensures p.status.Some? ==> Patched(h, p).status == p.status.value
    ensures p.totalAmount.Some? ==> Patched(h, p).totalAmount == p.totalAmount.value
    ensures p.customerId.Some? ==> Patched(h, p).customerId == p.customerId.value
    ensures p.saleDate.Some? ==> Patched(h, p).saleDate == p.saleDate.value
  {
  }

  /** A sale under the next id with an untaken number extends the table. */
  lemma SaleTableAppend(ss: seq<Sale>, next: nat, s: Sale)
    requires SaleTable(ss, next) && s.id == next && !NumberTaken(ss, s.saleNumber)
    ensures SaleTable(ss + [s], next + 1)
  {
    var r := ss + [s];
    assert forall i :: 0 <= i < |ss| ==> r[i] == ss[i];
  }

  /** Stock changes keep the product table's keys. */
  lemma ProductTableDecremented(ps: seq<Product>, next: nat, xs: seq<ItemRequest>)
    requires ProductTable(ps, next)
    ensures ProductTable(Decremented(ps, xs), next)
  {
    DecrementedKeepsKeys(ps, xs);
  }

  lemma ProductTableRestocked(ps: seq<Product>, next: nat, items: seq<SaleItem>)
    requires ProductTable(ps, next)
    ensures ProductTable(Restocked(ps, items), next)
  {
    RestockedKeepsKeys(ps, items);
  }

  /** One more line item written under the fresh sale. */
  lemma LineItemsSnoc(xs: seq<ItemRequest>, i: nat)
    requires i < |xs|
    ensures LineItems(xs[..i + 1]) == LineItems(xs[..i]) + [LineItem(xs[i])]
  {
    assert xs[..i + 1][..i] == xs[..i];
  }

  lemma DecrementedSnoc(ps: seq<Product>, xs: seq<ItemRequest>, i: nat)
    requires i < |xs|
    ensures Decremented(ps, xs[..i + 1]) == AdjustStock(Decremented(ps, xs[..i]), xs[i].productId, -xs[i].quantity)
  {
    assert xs[..i + 1][..i] == xs[..i];
  }

  lemma RestockedSnoc(ps: seq<Product>, items: seq<SaleItem>, i: nat)
    requires i < |items|
    ensures Restocked(ps, items[..i + 1]) == AdjustStock(Restocked(ps, items[..i]), items[i].productId, items[i].quantity)
  {
    assert items[..i + 1][..i] == items[..i];
  }

  /** Adding an item to the last row of the table. */
  lemma LastRowItem(ss: seq<Sale>, s: Sale, it: SaleItem)
    ensures (ss + [s])[|ss| := s.(items := s.items + [it])] == ss + [s.(items := s.items + [it])]
  {
  }

  /** Removing row `k` keeps the order and uniqueness of the rest. */
  lemma SaleTableRemove(ss: seq<Sale>, next: nat, k: nat)
    requires SaleTable(ss, next) && k < |ss|
    ensures SaleTable(ss[..k] + ss[k + 1..], next)
  {
    var r := ss[..k] + ss[k + 1..];
    assert forall i :: 0 <= i < |r| ==> r[i] == ss[if i < k then i else i + 1];
  }

  lemma ProductTableRemove(ps: seq<Product>, next: nat, k: nat)
    requires ProductTable(ps, next) && k < |ps|
    ensures ProductTable(ps[..k] + ps[k + 1..], next)
  {
    var r := ps[..k] + ps[k + 1..];
    assert forall i :: 0 <= i < |r| ==> r[i] == ps[if i < k then i else i + 1];
  }

  class Database {
    var customers: seq<Customer>
    var products: seq<Product>
    var sales: seq<Sale>
    var nextProductId: nat
    var nextSaleId: nat

    ghost predicate Valid()
      reads this
    {
      ProductTable(products, nextProductId) && SaleTable(sales, nextSaleId) && CustomerTable(customers)
    }

    /** Empty product and sale tables beside a given customer table. */
    constructor (customers: seq<Customer>)
      requires CustomerTable(customers)
      ensures Valid()
      ensures this.customers == customers && products == [] && sales == []
    {
      this.customers := customers;
      products, sales := [], [];
      nextProductId, nextSaleId := 1, 1;
    }

    // ------------------------------------------------------- SaleController

    /** `SaleController::store`: insert the sale under a fresh id with the
        number built from `random`, then, item by item, insert its line item
        and decrement the named product's quantity. The totals are stored as
        given, never recomputed from the items, and no stock guard applies.
        The insert of the sale fails (and nothing changes) when the customer
        does not exist or the number is already taken. */
    method StoreSale(request: SaleRequest, random: string) returns (result: Result<nat, Failure>)
      requires Valid()
      requires ValidatedItems(request.items, products)
      modifies this
      ensures Valid()
      ensures customers == old(customers) && nextProductId == old(nextProductId)
      ensures !HasCustomer(old(customers), request.header.customerId) ==> result == Err(UnknownCustomer)
      ensures HasCustomer(old(customers), request.header.customerId) && NumberTaken(old(sales), SaleNumber(random))
              ==> result == Err(DuplicateSaleNumber)
      ensures result.Err? ==> sales == old(sales) && products == old(products) && nextSaleId == old(nextSaleId)
      ensures result.Ok? <==> HasCustomer(old(customers), request.header.customerId) && !NumberTaken(old(sales), SaleNumber(random))
      ensures result.Ok? ==>
        && result.value == old(nextSaleId)
        && nextSaleId == old(nextSaleId) + 1
        && sales == old(sales) + [Sale(old(nextSaleId), SaleNumber(random), request.header, LineItems(request.items))]
        && products == Decremented(old(products), request.items)
    {
      if !HasCustomer(customers, request.header.customerId) {
        return Err(UnknownCustomer);
      }
      var number := SaleNumber(random);
      if NumberTaken(sales, number) {
        return Err(DuplicateSaleNumber);
      }
      result := InsertSale(number, request);
    }

    /** The part of `store` after the checks: the sale row, then one line
        item and one decrement per input item. */
    method InsertSale(number: string, request: SaleRequest) returns (result: Result<nat, Failure>)
      requires Valid()
      requires HasCustomer(customers, request.header.customerId) && !NumberTaken(sales, number)
      modifies this
      ensures Valid()
      ensures customers == old(customers) && nextProductId == old(nextProductId)
      ensures result == Ok(old(nextSaleId)) && nextSaleId == old(nextSaleId) + 1
      ensures sales == old(sales) + [Sale(old(nextSaleId), number, request.header, LineItems(request.items))]
      ensures products == Decremented(old(products), request.items)
    {
      var id := nextSaleId;
      var row := Sale(id, number, request.header, []);
      sales := sales + [row];
      nextSaleId := nextSaleId + 1;
      WriteItems(row, request.items);
      assert (old(sales) + [row])[..|old(sales)|] == old(sales);
      ProductTableDecremented(old(products), nextProductId, request.items);
      SaleTableAppend(old(sales), id, Sale(id, number, request.header, LineItems(request.items)));
      result := Ok(id);
    }

    /** The `foreach` of `store`: for each input item in order, one line item
        on the sale just inserted (the last row) and one decrement of the
        named product. */
    method WriteItems(row: Sale, xs: seq<ItemRequest>)
      requires |sales| > 0 && sales[|sales| - 1] == row && row.items == []
      modifies this
      ensures sales == old(sales)[..|old(sales)| - 1] + [row.(items := LineItems(xs))]
      ensures products == Decremented(old(products), xs)
      ensures customers == old(customers) && nextSaleId == old(nextSaleId) && nextProductId == old(nextProductId)
    {
      ghost var before := sales[..|sales| - 1];
      assert sales == before + [row];
      var i := 0;
      while i < |xs|
        invariant 0 <= i <= |xs|
        invariant sales == before + [row.(items := LineItems(xs[..i]))]
        invariant products == Decremented(old(products), xs[..i])
        invariant customers == old(customers) && nextSaleId == old(nextSaleId) && nextProductId == old(nextProductId)
      {
        var item := xs[i];
        LineItemsSnoc(xs, i);
        DecrementedSnoc(old(products), xs, i);
        LastRowItem(before, row.(items := LineItems(xs[..i])), LineItem(item));
        var last := |sales| - 1;
        sales := sales[last := sales[last].(items := sales[last].items + [LineItem(item)])];
        products := AdjustStock(products, item.productId, -item.quantity);
        i := i + 1;
      }
      assert xs[..i] == xs;
    }

    /** `SaleController::update`: only the sale's own columns change; its
        items and every product quantity stay as they were, whatever the new
        status (cancelling gives no stock back). */
    method UpdateSale(id: nat, patch: SalePatch) returns (result: Result<nat, Failure>)
      requires Valid()
      modifies this
      ensures Valid()
      ensures products == old(products) && customers == old(customers)
      ensures nextSaleId == old(nextSaleId) && nextProductId == old(nextProductId)
      ensures SalePosition(old(sales), id).None? ==> result == Err(NotFound) && sales == old(sales)
      ensures SalePosition(old(sales), id).Some? && patch.customerId.Some? && !HasCustomer(old(customers), patch.customerId.value)
              ==> result == Err(UnknownCustomer) && sales == old(sales)
      ensures result.Ok? ==>
        var k := SalePosition(old(sales), id).value;
        && result.value == id
        && sales == old(sales)[k := old(sales)[k].(header := Patched(old(sales)[k].header, patch))]
      ensures result.Ok? <==>
        SalePosition(old(sales), id).Some? && (patch.customerId.Some? ==> HasCustomer(old(customers), patch.customerId.value))
    {
      var pos := SalePosition(sales, id);
      if pos.None? {
        return Err(NotFound);
      }
      if patch.customerId.Some? && !HasCustomer(customers, patch.customerId.value) {
        return Err(UnknownCustomer);
      }
      var k := pos.value;
      sales := sales[k := sales[k].(header := Patched(sales[k].header, patch))];
      result := Ok(id);
    }

    /** `SaleController::destroy`: item by item, increment the named
        product's quantity by the item's quantity; then delete the sale and,
        with it, its items. A missing sale is a not-found error and changes
        nothing, so deleting twice gives no stock back twice. */
    method DestroySale(id: nat) returns (result: Result<nat, Failure>)
      requires Valid()
      requires forall k, j :: 0 <= k < |sales| && sales[k].id == id && 0 <= j < |sales[k].items|
                 ==> HasProduct(products, sales[k].items[j].productId)
      modifies this
      ensures Valid()
      ensures customers == old(customers) && nextSaleId == old(nextSaleId) && nextProductId == old(nextProductId)
      ensures SalePosition(old(sales), id).None? ==>
        result == Err(NotFound) && sales == old(sales) && products == old(products)
      ensures SalePosition(old(sales), id).Some? ==>
        var k := SalePosition(old(sales), id).value;
        && result == Ok(id)
        && products == Restocked(old(products), old(sales)[k].items)
        && sales == old(sales)[..k] + old(sales)[k + 1..]
      ensures forall k :: 0 <= k < |sales| ==> sales[k].id != id
    {
      var pos := SalePosition(sales, id);
      if pos.None? {
        return Err(NotFound);
      }
      var k := pos.value;
      var items := sales[k].items;
      var i := 0;
      while i < |items|
        invariant 0 <= i <= |items|
        invariant products == Restocked(old(products), items[..i])
        invariant sales == old(sales) && customers == old(customers)
        invariant nextSaleId == old(nextSaleId) && nextProductId == old(nextProductId)
      {
        RestockedSnoc(old(products), items, i);
        products := AdjustStock(products, items[i].productId, items[i].quantity);
        i := i + 1;
      }
      assert items[..i] == items;
      ProductTableRestocked(old(products), nextProductId, items);
      SaleTableRemove(sales, nextSaleId, k);
      sales := sales[..k] + sales[k + 1..];
      result := Ok(id);
    }

    // ---------------------------------------------------- ProductController

    /** `ProductController::store`: one new row with the form's columns, a
        fresh id and `now` as its creation time; a taken sku is refused by
        the unique index. */
    method StoreProduct(form: ProductForm, now: DateTime) returns (result: Result<nat, Failure>)
      requires Valid()
      modifies this
      ensures Valid()
      ensures sales == old(sales) && customers == old(customers) && nextSaleId == old(nextSaleId)
      ensures SkuTaken(old(products), form.sku, None) ==>
        result == Err(DuplicateSku) && products == old(products) && nextProductId == old(nextProductId)
      ensures !SkuTaken(old(products), form.sku, None) ==>
        && result == Ok(old(nextProductId))
        && products == old(products) + [FromForm(old(nextProductId), form, now)]
        && nextProductId == old(nextProductId) + 1
    {
      if SkuTaken(products, form.sku, None) {
        return Err(DuplicateSku);
      }
      var id := nextProductId;
      products := products + [FromForm(id, form, now)];
      nextProductId := nextProductId + 1;
      result := Ok(id);
    }

    /** `ProductController::update`: that one row takes the form's columns
        and keeps its id and creation time; every other row, and every sale
        with its price snapshots, is unchanged. */
    method UpdateProduct(id: nat, form: ProductForm) returns (result: Result<nat, Failure>)
      requires Valid()
      modifies this
      ensures Valid()
      ensures sales == old(sales) && customers == old(customers)
      ensures nextSaleId == old(nextSaleId) && nextProductId == old(nextProductId)
      ensures ProductPosition(old(products), id).None? ==> result == Err(NotFound) && products == old(products)
      ensures ProductPosition(old(products), id).Some? && SkuTaken(old(products), form.sku, Some(id)) ==>
        result == Err(DuplicateSku) && products == old(products)
      ensures ProductPosition(old(products), id).Some? && !SkuTaken(old(products), form.sku, Some(id)) ==>
        var k := ProductPosition(old(products), id).value;
        && result == Ok(id)
        && products == old(products)[k := FromForm(id, form, old(products)[k].createdAt)]
    {
      var pos := ProductPosition(products, id);
      if pos.None? {
        return Err(NotFound);
      }
      if SkuTaken(products, form.sku, Some(id)) {
        return Err(DuplicateSku);
      }
      var k := pos.value;
      products := products[k := FromForm(id, form, products[k].createdAt)];
      result := Ok(id);
    }

    /** `ProductController::destroy`: that one row goes; the others stay in order. */
    method DestroyProduct(id: nat) returns (result: Result<nat, Failure>)
      requires Valid()
      modifies this
      ensures Valid()
      ensures sales == old(sales) && customers == old(customers)
      ensures nextSaleId == old(nextSaleId) && nextProductId == old(nextProductId)
      ensures ProductPosition(old(products), id).None? ==> result == Err(NotFound) && products == old(products)
      ensures ProductPosition(old(products), id).Some? ==>
        var k := ProductPosition(old(products), id).value;
        result == Ok(id) && products == old(products)[..k] + old(products)[k + 1..]
      ensures forall k :: 0 <= k < |products| ==> products[k].id != id
    {
      var pos := ProductPosition(products, id);
      if pos.None? {
        return Err(NotFound);
      }
      var k := pos.value;
      ProductTableRemove(products, nextProductId, k);
      products := products[..k] + products[k + 1..];
      result := Ok(id);
    }
  }

  /** A sale appended under an id above all others is found at the end. */
  lemma LastSaleFound(ss: seq<Sale>, s: Sale)
    requires SaleTable(ss, s.id)
    ensures SalePosition(ss + [s], s.id) == Some(|ss|)
  {
    var r := ss + [s];
    assert forall k :: 0 <= k < |ss| ==> r[k].id < s.id;
    assert r[|ss|].id == s.id;
    var pos := SalePosition(r, s.id);
    assert pos.Some?;
    assert r[pos.value].id == s.id;
  }

  /** The products a store's items name still exist after the decrements. */
  lemma ItemsStillListed(ps: seq<Product>, xs: seq<ItemRequest>)
    requires ValidatedItems(xs, ps)
    ensures var items := LineItems(xs);
            forall j :: 0 <= j < |items| ==> HasProduct(Decremented(ps, xs), items[j].productId)
  {
    var items := LineItems(xs);
    DecrementedKeepsKeys(ps, xs);
    forall j | 0 <= j < |items| ensures HasProduct(Decremented(ps, xs), items[j].productId) {
      var pid := xs[j].productId;
      assert HasProduct(ps, pid);
      var m :| 0 <= m < |ps| && ps[m].id == pid;
      assert Decremented(ps, xs)[m].id == pid;
    }
  }

  /** A sale recorded and then deleted leaves the product and sale tables as
      they were; deleting it a second time is a not-found error. */
  method SellThenDelete(db: Database, request: SaleRequest, random: string)
    returns (stored: Result<nat, Failure>, again: Result<nat, Failure>)
    requires db.Valid()
    requires ValidatedItems(request.items, db.products)
    modifies db
    ensures db.Valid()
    ensures db.products == old(db.products) && db.sales == old(db.sales)
    ensures stored.Ok? ==> again == Err(NotFound)
  {
    again := Err(NotFound);
    stored := db.StoreSale(request, random);
    if stored.Ok? {
      var id := stored.value;
      ghost var before := old(db.sales);
      ghost var items := LineItems(request.items);
      assert db.sales == before + [Sale(id, SaleNumber(random), request.header, items)];
      LastSaleFound(before, Sale(id, SaleNumber(random), request.header, items));
      ItemsStillListed(old(db.products), request.items);
      var deleted := db.DestroySale(id);
      assert deleted == Ok(id);
      StoreThenDestroyRestores(old(db.products), request.items);
      assert db.products == Restocked(Decremented(old(db.products), request.items), items);
      assert db.sales == before by {
        assert (before + [Sale(id, SaleNumber(random), request.header, items)])[..|before|] == before;
      }
      again := db.DestroySale(id);
    }
  }
}
