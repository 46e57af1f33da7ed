/** The `Product` entity and its selling status, as far as the modelled code
    uses them. */
module Products {
  import opened ProductTypes

  /** `ProductSellingStatus`. The `forDisplay()` set is SELLING and HOLD. */
  datatype ProductSellingStatus = SELLING | HOLD | STOP_SELLING

  /** A catalog row. `productNumber` is its business key. */
  datatype Product = Product(
    productNumber: string,
    productType: ProductType,
    sellingStatus: ProductSellingStatus,
    name: string,
    price: int)

  /** Whether the product's stock is tracked (the order service's filter). */
  predicate IsStockProduct(p: Product)
  {
    ContainsStockType(p.productType)
  }
}
