/** The rows of the five tables the controllers touch, shaped by the
    migrations: money columns are `decimal(10,2)` (held here as cents),
    quantities are plain integers, statuses are enums. A sale carries its
    line items, which the database keeps in `sale_items` keyed by `sale_id`. */
module Records {
  import opened Basics

  /** The `active`/`inactive` enum of categories, customers and products. */
  datatype Activity = Active | Inactive

  /** The `pending`/`completed`/`cancelled` enum of sales. */
  datatype SaleStatus = Pending | Completed | Cancelled

  /** The spelling of an enum value in the column and in a request parameter. */
  function ActivityName(a: Activity): string {
    match a
    case Active => "active"
    case Inactive => "inactive"
  }

  function SaleStatusName(s: SaleStatus): string {
    match s
    case Pending => "pending"
    case Completed => "completed"
    case Cancelled => "cancelled"
  }

  datatype Category = Category(id: nat, name: string, status: Activity)

  datatype Customer = Customer(id: nat, name: string, email: string, status: Activity)

  datatype Product = Product(
    id: nat,
    name: string,
    description: Option<string>,
    sku: string,
    price: Cents,
    quantity: int,
    minStockLevel: int,
    categoryId: nat,
    status: Activity,
    createdAt: DateTime)

  /** The validated product form that `store` and `update` write. */
  datatype ProductForm = ProductForm(
    name: string,
    description: Option<string>,
    sku: string,
    price: Cents,
    quantity: int,
    minStockLevel: int,
    categoryId: nat,
    status: Activity)

  /** The row a product form becomes under a given id and creation time. */
  function FromForm(id: nat, f: ProductForm, createdAt: DateTime): Product {
    Product(id, f.name, f.description, f.sku, f.price, f.quantity, f.minStockLevel,
            f.categoryId, f.status, createdAt)
  }

  /** The `lowStock` scope: stock at or below the configured minimum. */
  predicate IsLowStock(p: Product) {
    p.quantity <= p.minStockLevel
  }

  /** The mass-assignable columns of a sale other than `sale_number`. */
  datatype SaleHeader = SaleHeader(
    customerId: nat,
    subtotal: Cents,
    taxAmount: Cents,
    totalAmount: Cents,
    status: SaleStatus,
    notes: Option<string>,
    saleDate: DateTime)

  /** A row of `sale_items`: the product, the quantity and the price snapshot. */
  datatype SaleItem = SaleItem(productId: nat, quantity: int, unitPrice: Cents, totalPrice: Cents)

  datatype Sale = Sale(id: nat, saleNumber: string, header: SaleHeader, items: seq<SaleItem>)

  /** One entry of the validated `items` array of a store request. */
  datatype ItemRequest = ItemRequest(productId: nat, quantity: int, unitPrice: Cents)

  /** The validated store request: the sale columns and the line items. */
  datatype SaleRequest = SaleRequest(header: SaleHeader, items: seq<ItemRequest>)

  predicate HasProduct(ps: seq<Product>, id: nat) {
    exists k :: 0 <= k < |ps| && ps[k].id == id
  }

  predicate HasCustomer(cs: seq<Customer>, id: nat) {
    exists k :: 0 <= k < |cs| && cs[k].id == id
  }
}
