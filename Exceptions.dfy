/** The Java exceptions the modelled code can throw, with the messages it
    gives them. */
module Exceptions {

  datatype Exception =
    /** `IllegalArgumentException` thrown by the domain and service code. */
    | IllegalArgument(message: string)
    /** `IllegalStateException` from `Collectors.toMap` on a repeated key. */
    | DuplicateKey(key: string)
    /** `NumberFormatException` from `Integer.parseInt`. */
    | NumberFormat(input: string)
    /** `NullPointerException`: a method called on a `null` reference. */
    | NullPointer

  /** Thrown by `Stock.deductQuantity` when the stock is short. */
  const NO_QUANTITY_TO_DEDUCT: string := "차감할 재고 수량이 없습니다."

  /** Thrown by the order service when some product's stock is short. */
  const INSUFFICIENT_STOCK: string := "재고가 부족한 상품이 있습니다."
}
