/** `Stock`: the stock ledger entry of one stock-tracked product. */
module Stocks {
  import opened Wrappers
  import opened Exceptions

  class Stock {
    /** Storage-assigned identity; `None` until the row is saved. */
    var id: Option<int>
    /** The product this entry counts; only the constructor sets it. */
    const productNumber: string
    var quantity: int

    /** `Stock.create`: a new, unsaved entry. No bound is put on `quantity`. */
    constructor Create(productNumber: string, quantity: int)
      ensures this.productNumber == productNumber
      ensures this.quantity == quantity
      ensures id == None
    {
      this.productNumber := productNumber;
      this.quantity := quantity;
      id := None;
    }

    /** `isQuantityLessThan`: whether fewer than `q` units are in stock. */
    predicate IsQuantityLessThan(q: int)
      reads this
    {
      quantity < q
    }

    /** `deductQuantity`: removes `q` units, or throws and changes nothing when
        fewer than `q` are in stock, whatever the caller checked beforehand. */
    method DeductQuantity(q: int) returns (r: Outcome<Exception>)
      modifies this`quantity
      ensures r == if old(quantity) < q then Fail(IllegalArgument(NO_QUANTITY_TO_DEDUCT)) else Pass
      ensures r.Fail? ==> quantity == old(quantity)
      ensures r.Pass? ==> quantity == old(quantity) - q
      // a successful deduction never leaves the entry negative, so a
      // non-negative quantity stays non-negative whatever the outcome
      ensures r.Pass? ==> quantity >= 0
      ensures old(quantity) >= 0 ==> quantity >= 0
      // a negative amount is not rejected: it raises a non-negative quantity
      ensures q < 0 && old(quantity) >= 0 ==> r.Pass? && quantity > old(quantity)
      ensures id == old(id)
    {
      if IsQuantityLessThan(q) {
        return Fail(IllegalArgument(NO_QUANTITY_TO_DEDUCT));
      }
      quantity := quantity - q;
      r := Pass;
    }
  }
}
