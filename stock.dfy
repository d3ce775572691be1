/** What recording and deleting a sale do to the data, as functions of the
    tables before the call: the generated sale number, the line items
    written to `sale_items`, and the product quantities after the per-item
    `decrement` (store) or `increment` (destroy). */
module Stock {
  import opened Basics
  import opened Records

  // ---------------------------------------------------------- sale number

  const SalePrefix: string := "SALE-"

  /** `'SALE-' . strtoupper(Str::random(8))`, the eight characters given. */
  function SaleNumber(random: string): (n: string)
    ensures |n| == |SalePrefix| + |random|
    ensures n[..|SalePrefix|] == SalePrefix
    ensures forall i :: 0 <= i < |random| ==> n[|SalePrefix| + i] == UpperChar(random[i])
  {
    SalePrefix + Upper(random)
  }

  /** With the alphanumeric characters `Str::random` draws, the number is 13
      characters of which the last 8 are upper-case letters or digits. */
  lemma SaleNumberShape(random: string)
    requires |random| == 8
    requires forall i :: 0 <= i < |random| ==> IsAlphaNumeric(random[i])
    ensures |SaleNumber(random)| == 13
    ensures forall i :: 5 <= i < 13 ==> IsUpper(SaleNumber(random)[i]) || IsDigit(SaleNumber(random)[i])
  {
    var n := SaleNumber(random);
    forall i | 5 <= i < 13 ensures IsUpper(n[i]) || IsDigit(n[i]) {
      assert n[i] == UpperChar(random[i - 5]);
    }
  }

  /** Upper-casing folds letters: two draws give the same number exactly
      when they agree character by character up to case, so draws differing
      only in case collide on the unique index. */
  lemma SaleNumberFoldsCase(a: string, b: string)
    ensures SaleNumber(a) == SaleNumber(b) <==>
              |a| == |b| && forall i :: 0 <= i < |a| ==> UpperChar(a[i]) == UpperChar(b[i])
  {
    if SaleNumber(a) == SaleNumber(b) {
      forall i | 0 <= i < |a| ensures UpperChar(a[i]) == UpperChar(b[i]) {
        assert SaleNumber(a)[|SalePrefix| + i] == SaleNumber(b)[|SalePrefix| + i];
      }
    }
    if |a| == |b| && forall i :: 0 <= i < |a| ==> UpperChar(a[i]) == UpperChar(b[i]) {
      assert Upper(a) == Upper(b);
    }
  }

  // ----------------------------------------------------------- line items

  /** The `sale_items` row created for one input item. */
  function LineItem(x: ItemRequest): SaleItem {
    SaleItem(x.productId, x.quantity, x.unitPrice, x.quantity * x.unitPrice)
  }

  /** The rows created, in input order: one per input item, with product,
      quantity and unit price copied and the line total their product. */
  function LineItems(xs: seq<ItemRequest>): (r: seq<SaleItem>)
    ensures |r| == |xs|
    ensures forall k :: 0 <= k < |xs| ==>
      && r[k].productId == xs[k].productId
      && r[k].quantity == xs[k].quantity
      && r[k].unitPrice == xs[k].unitPrice
      && r[k].totalPrice == r[k].quantity * r[k].unitPrice
  {
    if xs == [] then [] else LineItems(xs[..|xs| - 1]) + [LineItem(xs[|xs| - 1])]
  }

  // ---------------------------------------------------------------- stock

  /** `UPDATE products SET quantity = quantity + delta WHERE id = pid`: what
      `$product->increment('quantity', $n)` / `decrement` issue. */
  function AdjustStock(ps: seq<Product>, pid: nat, delta: int): (r: seq<Product>)
    ensures |r| == |ps|
  {
    seq(|ps|, k requires 0 <= k < |ps| =>
      if ps[k].id == pid then ps[k].(quantity := ps[k].quantity + delta) else ps[k])
  }

  /** An increment undoes a decrement of the same amount. */
  lemma AdjustStockUndo(ps: seq<Product>, pid: nat, delta: int)
    ensures AdjustStock(AdjustStock(ps, pid, delta), pid, -delta) == ps
  {
    var r := AdjustStock(AdjustStock(ps, pid, delta), pid, -delta);
    forall k | 0 <= k < |ps| ensures r[k] == ps[k] {
    }
  }

  /** The products after the store loop has decremented once per input item, in order. */
  function Decremented(ps: seq<Product>, xs: seq<ItemRequest>): (r: seq<Product>)
    ensures |r| == |ps|
  {
    if xs == [] then ps
    else
      var x := xs[|xs| - 1];
      AdjustStock(Decremented(ps, xs[..|xs| - 1]), x.productId, -x.quantity)
  }

  /** The products after the destroy loop has incremented once per sale item, in order. */
  function Restocked(ps: seq<Product>, items: seq<SaleItem>): (r: seq<Product>)
    ensures |r| == |ps|
  {
    if items == [] then ps
    else
      var it := items[|items| - 1];
      AdjustStock(Restocked(ps, items[..|items| - 1]), it.productId, it.quantity)
  }

  /** The total quantity the input items request of product `pid`. */
  function Demand(xs: seq<ItemRequest>, pid: nat): int {
    if xs == [] then 0
    else Demand(xs[..|xs| - 1], pid) + (if xs[|xs| - 1].productId == pid then xs[|xs| - 1].quantity else 0)
  }

  /** The total quantity the sale items hold of product `pid`. */
  function Held(items: seq<SaleItem>, pid: nat): int {
    if items == [] then 0
    else Held(items[..|items| - 1], pid) + (if items[|items| - 1].productId == pid then items[|items| - 1].quantity else 0)
  }

  /** After `store`, each product has lost exactly what the items request of
      it, in total over all items naming it; nothing else about any row
      changes, and a product no item names is untouched. */
  lemma {:induction false} DecrementedAt(ps: seq<Product>, xs: seq<ItemRequest>, k: nat)
    requires k < |ps|
    ensures Decremented(ps, xs)[k] == ps[k].(quantity := ps[k].quantity - Demand(xs, ps[k].id))
  {
    if xs != [] {
      DecrementedAt(ps, xs[..|xs| - 1], k);
    }
  }

  /** After `destroy`, each product has gained exactly what the sale's items
      hold of it; nothing else changes. */
  lemma {:induction false} RestockedAt(ps: seq<Product>, items: seq<SaleItem>, k: nat)
    requires k < |ps|
    ensures Restocked(ps, items)[k] == ps[k].(quantity := ps[k].quantity + Held(items, ps[k].id))
  {
    if items != [] {
      RestockedAt(ps, items[..|items| - 1], k);
    }
  }

  /** A product that no input item names keeps its quantity. */
  lemma {:induction false} DemandUnnamed(xs: seq<ItemRequest>, pid: nat)
    requires forall k :: 0 <= k < |xs| ==> xs[k].productId != pid
    ensures Demand(xs, pid) == 0
  {
    if xs != [] {
      DemandUnnamed(xs[..|xs| - 1], pid);
    }
  }

  /** The stored items hold of each product exactly what the input requested. */
  lemma {:induction false} HeldLineItems(xs: seq<ItemRequest>, pid: nat)
    ensures Held(LineItems(xs), pid) == Demand(xs, pid)
  {
    if xs != [] {
      var init := xs[..|xs| - 1];
      HeldLineItems(init, pid);
      var items := LineItems(xs);
      assert items[..|items| - 1] == LineItems(init);
    }
  }

  /** Deleting the sale `store` just recorded puts every product back exactly
      as it was. */
  lemma StoreThenDestroyRestores(ps: seq<Product>, xs: seq<ItemRequest>)
    ensures Restocked(Decremented(ps, xs), LineItems(xs)) == ps
  {
    var d := Decremented(ps, xs);
    var r := Restocked(d, LineItems(xs));
    forall k | 0 <= k < |ps| ensures r[k] == ps[k] {
      DecrementedAt(ps, xs, k);
      RestockedAt(d, LineItems(xs), k);
      HeldLineItems(xs, ps[k].id);
    }
  }

  /** Every row keeps its id and sku through a decrement or an increment. */
  lemma DecrementedKeepsKeys(ps: seq<Product>, xs: seq<ItemRequest>)
    ensures forall k :: 0 <= k < |ps| ==> Decremented(ps, xs)[k].id == ps[k].id && Decremented(ps, xs)[k].sku == ps[k].sku
  {
    forall k | 0 <= k < |ps| ensures Decremented(ps, xs)[k].id == ps[k].id && Decremented(ps, xs)[k].sku == ps[k].sku {
      DecrementedAt(ps, xs, k);
    }
  }

  lemma RestockedKeepsKeys(ps: seq<Product>, items: seq<SaleItem>)
    ensures forall k :: 0 <= k < |ps| ==> Restocked(ps, items)[k].id == ps[k].id && Restocked(ps, items)[k].sku == ps[k].sku
  {
    forall k | 0 <= k < |ps| ensures Restocked(ps, items)[k].id == ps[k].id && Restocked(ps, items)[k].sku == ps[k].sku {
      RestockedAt(ps, items, k);
    }
  }

  /** There is no stock guard: selling more than is on hand drives the
      quantity negative. */
  lemma OversellGoesNegative(p: Product, q: int)
    requires q > p.quantity
    ensures Decremented([p], [ItemRequest(p.id, q, 0)])[0].quantity < 0
  {
    DecrementedAt([p], [ItemRequest(p.id, q, 0)], 0);
    assert [ItemRequest(p.id, q, 0)][..0] == [];
  }
}
