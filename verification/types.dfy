/** The records the storefront keeps: products, cart entries, sales and the
    store document that holds them. Money is an exact `real`; counts and
    timestamps are integers (a sheet can import a negative quantity). */
module Types {
  import opened Wrappers

  datatype Role = Admin | Viewer

  /** `stock` is the internal stock view, `catalog` the customer view. */
  datatype DisplayMode = Stock | Catalog

  datatype Product = Product(
    id: string,
    brand: string,
    name: string,
    size: string,
    color: string,
    price: real,
    cost: real,
    category: string,
    image: string,
    addedAt: int,
    quantity: int)

  datatype CartItem = CartItem(productId: string, quantity: int)

  datatype SaleRecord = SaleRecord(
    id: string,
    productId: string,
    productName: string,
    size: string,
    price: real,
    buyerName: string,
    soldAt: int)

  /** The optional settings are `None` when the key is absent. */
  datatype StoreData = StoreData(
    code: string,
    sheetId: Option<string>,
    webhookUrl: Option<string>,
    whatsappNumber: Option<string>,
    products: seq<Product>,
    sales: seq<SaleRecord>)
}
