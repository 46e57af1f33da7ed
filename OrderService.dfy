/** `OrderService`: placing an order resolves the requested product numbers,
    deducts the stock of the stock-tracked products, and only then saves the
    order. The service runs in one transaction, so a failure leaves no
    deduction and no order behind. */
module OrderService {
  import opened Wrappers
  import opened Exceptions
  import opened ProductTypes
  import opened Products
  import opened Stocks
  import opened Streams

  /** A `LocalDateTime`, passed through untouched. */
  datatype LocalDateTime = LocalDateTime(epochSecond: int)

  /** `OrderCreateServiceRequest`: the requested product numbers, in order. */
  datatype OrderCreateServiceRequest = OrderCreateServiceRequest(productNumbers: seq<string>)

  /** What `Order.create(products, registeredDateTime)` is built from. */
  datatype Order = Order(products: seq<Product>, registeredDateTime: LocalDateTime)

  /** `OrderRepository`: the saved orders, oldest first. */
  class OrderRepository {
    var orders: seq<Order>

    constructor ()
      ensures orders == []
    {
      orders := [];
    }

    method Save(order: Order)
      modifies this
      ensures orders == old(orders) + [order]
    {
      orders := orders + [order];
    }
  }

  // ---------------------------------------------------------------------
  // Resolving product numbers

  function ProductNumberOf(p: Product): string
  {
    p.productNumber
  }

  function RequestedProduct(numbers: seq<string>): Product -> bool
  {
    (p: Product) => p.productNumber in numbers
  }

  /** `productRepository.findAllByProductNumberIn`: the catalog rows whose
      number is requested, each once, in catalog order. */
  function FindAllProductsByProductNumberIn(catalog: seq<Product>, numbers: seq<string>): seq<Product>
  {
    Filter(catalog, RequestedProduct(numbers))
  }

  function Get(m: map<string, Product>, k: string): Option<Product>
  {
    if k in m then Some(m[k]) else None
  }

  /** Slot `i` holds the catalog product numbered `productNumbers[i]`, or
      `None` exactly when the catalog has no product with that number. */
  ghost predicate SlotsMatch(slots: seq<Option<Product>>, productNumbers: seq<string>, catalog: seq<Product>)
  {
    && |slots| == |productNumbers|
    && forall i | 0 <= i < |productNumbers| ::
         match slots[i]
         case Some(p) => p in catalog && p.productNumber == productNumbers[i]
         case None => forall p | p in catalog :: p.productNumber != productNumbers[i]
  }

  /** Looking each requested number up in the map built from the matching
      catalog rows fills the slots as `SlotsMatch` says. */
  lemma LookupMatches(productNumbers: seq<string>, catalog: seq<Product>, productMap: map<string, Product>)
    requires ToMap(FindAllProductsByProductNumberIn(catalog, productNumbers), ProductNumberOf) == Success(productMap)
    ensures SlotsMatch(seq(|productNumbers|, i requires 0 <= i < |productNumbers| => Get(productMap, productNumbers[i])),
                       productNumbers, catalog)
  {
    var found := FindAllProductsByProductNumberIn(catalog, productNumbers);
    ToMapValues(found, ProductNumberOf);
    forall p | p in catalog && p.productNumber in productNumbers ensures p.productNumber in productMap {
      assert RequestedProduct(productNumbers)(p);
      assert p in found;
    }
    var slots := seq(|productNumbers|, i requires 0 <= i < |productNumbers| => Get(productMap, productNumbers[i]));
    forall i | 0 <= i < |productNumbers|
      ensures match slots[i]
        case Some(p) => p in catalog && p.productNumber == productNumbers[i]
        case None => forall p | p in catalog :: p.productNumber != productNumbers[i]
    {
      var n := productNumbers[i];
      if n in productMap {
        assert slots[i] == Some(productMap[n]);
        assert productMap[n] in found;
      } else {
        assert slots[i] == None;
      }
    }
  }

  /** `findProductsBy`: one slot per requested number, in request order and
      with repeats; a slot is the catalog product with that number, or `None`
      (Java's `null`) when there is none. Building the lookup map throws when
      two catalog rows share a requested number. */
  function FindProductsBy(productNumbers: seq<string>, catalog: seq<Product>): (r: Result<seq<Option<Product>>, Exception>)
    ensures r.Success? <==> UniqueKeysWhere(catalog, ProductNumberOf, RequestedProduct(productNumbers))
    ensures r.Failure? ==> r.error.DuplicateKey? && r.error.key in productNumbers
    ensures r.Success? ==> SlotsMatch(r.value, productNumbers, catalog)
  {
    var found := FindAllProductsByProductNumberIn(catalog, productNumbers);
    FilterUniqueKeys(catalog, ProductNumberOf, RequestedProduct(productNumbers));
    var lookup := ToMap(found, ProductNumberOf);
    if lookup.Failure? then
      RepeatedKeyIsRequested(productNumbers, catalog, lookup.error.key);
      Failure(lookup.error)
    else
      var productMap := lookup.value;
      LookupMatches(productNumbers, catalog, productMap);
      Success(seq(|productNumbers|, i requires 0 <= i < |productNumbers| => Get(productMap, productNumbers[i])))
  }

  /** A number repeated among the found rows is one of the requested numbers. */
  lemma RepeatedKeyIsRequested(productNumbers: seq<string>, catalog: seq<Product>, k: string)
    requires
      var found := FindAllProductsByProductNumberIn(catalog, productNumbers);
      exists i, j :: 0 <= i < j < |found| && ProductNumberOf(found[i]) == k && ProductNumberOf(found[j]) == k
    ensures k in productNumbers
  {
    var found := FindAllProductsByProductNumberIn(catalog, productNumbers);
    var i, j :| 0 <= i < j < |found| && ProductNumberOf(found[i]) == k && ProductNumberOf(found[j]) == k;
    assert found[i] in found;
  }

  // ---------------------------------------------------------------------
  // Demand on stock

  /** The products of a list without `null`s. */
  function Present(products: seq<Option<Product>>): (r: seq<Product>)
    requires None !in products
    ensures |r| == |products| && forall i | 0 <= i < |products| :: products[i] == Some(r[i])
  {
    assert forall i | 0 <= i < |products| :: products[i].Some? by {
      forall i | 0 <= i < |products| ensures products[i].Some? {
        assert products[i] in products;
      }
    }
    seq(|products|, i requires 0 <= i < |products| => products[i].value)
  }

  function NumbersOf(products: seq<Product>): (r: seq<string>)
    ensures |r| == |products| && forall i | 0 <= i < |products| :: r[i] == products[i].productNumber
  {
    seq(|products|, i requires 0 <= i < |products| => products[i].productNumber)
  }

  /** `extractStockProductNumbers`: the numbers of the stock-tracked products,
      in order and with repeats. Reading the type of a `null` slot throws. */
  function ExtractStockProductNumbers(products: seq<Option<Product>>): (r: Result<seq<string>, Exception>)
    ensures r.Success? <==> None !in products
    ensures r.Failure? ==> r.error == NullPointer
    ensures r.Success? ==> r.value == NumbersOf(Filter(Present(products), IsStockProduct))
  {
    if products == [] then Success([])
    else
      match products[0]
      case None => Failure(NullPointer)
      case Some(p) =>
        match ExtractStockProductNumbers(products[1..])
        case Failure(e) => Failure(e)
        case Success(rest) =>
          ExtractStep(products);
          Success((if ContainsStockType(p.productType) then [p.productNumber] else []) + rest)
  }

  /** One step of the extraction: the first product's number, if it is
      stock-tracked, followed by the numbers extracted from the rest. */
  lemma ExtractStep(products: seq<Option<Product>>)
    requires products != [] && None !in products
    ensures NumbersOf(Filter(Present(products), IsStockProduct)) ==
      (if IsStockProduct(products[0].value) then [products[0].value.productNumber] else [])
      + NumbersOf(Filter(Present(products[1..]), IsStockProduct))
  {
    var present := Present(products);
    PresentFirst(products);
    FilterFirst(present, IsStockProduct);
    var own := if IsStockProduct(present[0]) then [present[0]] else [];
    NumbersOfAppend(own, Filter(present[1..], IsStockProduct));
  }

  lemma PresentFirst(products: seq<Option<Product>>)
    requires products != [] && None !in products
    ensures products[0].Some? && Present(products)[0] == products[0].value
    ensures Present(products)[1..] == Present(products[1..])
  {
    assert products[0] in products;
  }

  /** `createCountingMapBy`: `groupingBy(identity, counting())`, one key per
      distinct number, mapped to how often it occurs. */
  function CreateCountingMapBy(numbers: seq<string>): (r: map<string, nat>)
    ensures forall k :: k in r <==> k in numbers
    ensures forall k | k in r :: r[k] == multiset(numbers)[k]
  {
    if numbers == [] then map[]
    else
      var init, last := numbers[..|numbers| - 1], numbers[|numbers| - 1];
      assert numbers == init + [last];
      var m := CreateCountingMapBy(init);
      m[last := if last in m then m[last] + 1 else 1]
  }

  // ---------------------------------------------------------------------
  // The stock entries

  function StockNumberOf(s: Stock): string
  {
    s.productNumber
  }

  function RequestedStock(numbers: seq<string>): Stock -> bool
  {
    (s: Stock) => s.productNumber in numbers
  }

  /** `createStockMapBy`: the stock entries of the given numbers, keyed by
      number; two entries for one number make `toMap` throw. */
  function CreateStockMapBy(stocks: seq<Stock>, numbers: seq<string>): (r: Result<map<string, Stock>, Exception>)
    ensures r.Success? <==> UniqueKeysWhere(stocks, StockNumberOf, RequestedStock(numbers))
    ensures r.Failure? ==> r.error.DuplicateKey? && r.error.key in numbers
    ensures r.Success? ==> forall k :: k in r.value <==> k in numbers && exists s | s in stocks :: s.productNumber == k
    ensures r.Success? ==> forall s | s in stocks && s.productNumber in numbers :: r.value[s.productNumber] == s
    ensures r.Success? ==> forall k | k in r.value :: r.value[k] in stocks && r.value[k].productNumber == k
  {
    var found := Filter(stocks, RequestedStock(numbers));
    FilterUniqueKeys(stocks, StockNumberOf, RequestedStock(numbers));
    var r := ToMap(found, StockNumberOf);
    if r.Success? then
      ToMapValues(found, StockNumberOf);
      r
    else
      assert r.error.key in numbers by {
        var i, j :| 0 <= i < j < |found| && StockNumberOf(found[i]) == r.error.key && StockNumberOf(found[j]) == r.error.key;
        assert found[i] in found;
      }
      r
  }

  // ---------------------------------------------------------------------
  // Sum of the counts

  ghost function Pick(m: map<string, nat>): string
    requires m != map[]
  {
    var k :| k in m; k
  }

  /** The sum of a counting map's values. */
  ghost function Total(m: map<string, nat>): nat
    decreases |m|
  {
    if m == map[] then 0
    else
      var k := Pick(m);
      assert |m - {k}| < |m| by {
        assert (m - {k}).Keys == m.Keys - {k};
      }
      m[k] + Total(m - {k})
  }

  /** `Total` may take the keys in any order. */
  lemma {:induction false} TotalWithout(m: map<string, nat>, k: string)
    requires k in m
    ensures Total(m) == m[k] + Total(m - {k})
    decreases |m|
  {
    var k' := Pick(m);
    if k' != k {
      assert |m - {k'}| < |m| by {
        assert (m - {k'}).Keys == m.Keys - {k'};
      }
      TotalWithout(m - {k'}, k);
      TotalWithout(m - {k}, k');
      assert (m - {k'}) - {k} == (m - {k}) - {k'};
    }
  }

  /** The counts of `createCountingMapBy` add up to the length of the list. */
  lemma {:induction false} CountingMapTotal(numbers: seq<string>)
    ensures Total(CreateCountingMapBy(numbers)) == |numbers|
  {
    if numbers != [] {
      var init, last := numbers[..|numbers| - 1], numbers[|numbers| - 1];
      assert numbers == init + [last];
      var m := CreateCountingMapBy(init);
      var m' := CreateCountingMapBy(numbers);
      CountingMapTotal(init);
      TotalWithout(m', last);
      assert m' - {last} == m - {last};
      if last in m {
        TotalWithout(m, last);
      } else {
        assert m - {last} == m;
      }
    }
  }

  // ---------------------------------------------------------------------
  // Deducting stock

  /** Every demanded number has a stock entry holding at least its demand. */
  ghost predicate Sufficient(stockMap: map<string, Stock>, demand: map<string, nat>)
    reads stockMap.Values
  {
    forall k | k in demand :: k in stockMap && stockMap[k].quantity >= demand[k]
  }

  /** `deductStockQuantities` of these products against these entries gets
      through without throwing. */
  ghost predicate DeductionSucceeds(products: seq<Option<Product>>, stocks: seq<Stock>)
    reads stocks
  {
    match ExtractStockProductNumbers(products)
    case Failure(_) => false
    case Success(numbers) =>
      match CreateStockMapBy(stocks, numbers)
      case Failure(_) => false
      case Success(stockMap) => Sufficient(stockMap, CreateCountingMapBy(numbers))
  }

  /** `deductStockQuantities` may throw `e` for these products and entries.
      When one number has no entry and another is short, which of the two
      exceptions is thrown depends on the `HashSet` iteration order. */
  ghost predicate DeductionMayFailWith(products: seq<Option<Product>>, stocks: seq<Stock>, e: Exception)
    reads stocks
  {
    match ExtractStockProductNumbers(products)
    case Failure(e') => e == e'
    case Success(numbers) =>
      match CreateStockMapBy(stocks, numbers)
      case Failure(e') => e == e'
      case Success(stockMap) =>
        var demand := CreateCountingMapBy(numbers);
        || (e == NullPointer && exists k | k in demand :: k !in stockMap)
        || (e == IllegalArgument(INSUFFICIENT_STOCK) &&
            exists k | k in demand && k in stockMap :: stockMap[k].quantity < demand[k])
  }

  /** How many units of `productNumber` the products demand. */
  ghost function Demand(products: seq<Option<Product>>, productNumber: string): nat
  {
    match ExtractStockProductNumbers(products)
    case Failure(_) => 0
    case Success(numbers) => multiset(numbers)[productNumber]
  }

  /** The transaction's rollback: puts back the quantities read at its start. */
  method Rollback(stocks: seq<Stock>, snapshot: seq<int>)
    requires |snapshot| == |stocks|
    requires forall i, j | 0 <= i < |stocks| && 0 <= j < |stocks| && stocks[i] == stocks[j] :: snapshot[i] == snapshot[j]
    modifies stocks
    ensures forall i | 0 <= i < |stocks| :: stocks[i].quantity == snapshot[i]
    ensures forall s | s in stocks :: s.id == old(s.id)
  {
    for n := 0 to |stocks|
      invariant forall i | 0 <= i < n :: stocks[i].quantity == snapshot[i]
      invariant forall s | s in stocks :: s.id == old(s.id)
    {
      stocks[n].quantity := snapshot[n];
    }
  }

  /** The loop of `deductStockQuantities`: for each demanded number, in the
      `HashSet`'s order, look the entry up, check it against the demand and
      deduct it; on an exception, roll every entry back. */
  method DeductEach(stocks: seq<Stock>, stockMap: map<string, Stock>, demand: map<string, nat>)
    returns (r: Outcome<Exception>)
    requires forall k | k in stockMap :: stockMap[k] in stocks && stockMap[k].productNumber == k
    requires forall s | s in stocks && s.productNumber in demand :: s.productNumber in stockMap && stockMap[s.productNumber] == s
    modifies stocks
    ensures r.Pass? <==> old(Sufficient(stockMap, demand))
    ensures r.Pass? ==> forall s | s in stocks ::
      s.quantity == old(s.quantity) - if s.productNumber in demand then demand[s.productNumber] else 0
    ensures r.Fail? ==>
      || (r.error == NullPointer && exists k | k in demand :: k !in stockMap)
      || (r.error == IllegalArgument(INSUFFICIENT_STOCK) &&
          exists k | k in demand && k in stockMap :: old(stockMap[k].quantity) < demand[k])
    ensures r.Fail? ==> forall s | s in stocks :: s.quantity == old(s.quantity)
    ensures forall s | s in stocks :: s.id == old(s.id)
  {
    var snapshot := seq(|stocks|, i reads stocks requires 0 <= i < |stocks| => stocks[i].quantity);
    var pending := demand.Keys;
    while pending != {}
      invariant pending <= demand.Keys
      invariant forall k | k in demand && k !in pending :: k in stockMap && old(stockMap[k].quantity) >= demand[k]
      invariant forall s | s in stocks ::
        s.quantity == old(s.quantity) - if s.productNumber in demand && s.productNumber !in pending then demand[s.productNumber] else 0
      invariant forall s | s in stocks :: s.id == old(s.id)
      decreases pending
    {
      var k :| k in pending;
      if k !in stockMap {
        Rollback(stocks, snapshot);
        return Fail(NullPointer);
      }
      var stock := stockMap[k];
      var quantity := demand[k];
      if stock.IsQuantityLessThan(quantity) {
        Rollback(stocks, snapshot);
        return Fail(IllegalArgument(INSUFFICIENT_STOCK));
      }
      var deducted := stock.DeductQuantity(quantity);
      // the check just made means the entry's own guard cannot fire
      assert deducted.Pass?;
      pending := pending - {k};
    }
    r := Pass;
  }

  /** `deductStockQuantities`: the stock-tracked numbers, their entries and
      their counts, then the loop. On success every entry has dropped by
      exactly its demand; on any exception no entry has changed. */
  method DeductStockQuantities(products: seq<Option<Product>>, stocks: seq<Stock>) returns (r: Outcome<Exception>)
    modifies stocks
    ensures r.Pass? <==> old(DeductionSucceeds(products, stocks))
    ensures r.Pass? ==> forall s | s in stocks :: s.quantity == old(s.quantity) - Demand(products, s.productNumber)
    ensures r.Fail? ==> old(DeductionMayFailWith(products, stocks, r.error))
    ensures r.Fail? ==> forall s | s in stocks :: s.quantity == old(s.quantity)
    ensures forall s | s in stocks :: s.id == old(s.id)
  {
    var extracted := ExtractStockProductNumbers(products);
    if extracted.Failure? {
      return Fail(extracted.error);
    }
    var numbers := extracted.value;
    var stockMapResult := CreateStockMapBy(stocks, numbers);
    if stockMapResult.Failure? {
      return Fail(stockMapResult.error);
    }
    var stockMap := stockMapResult.value;
    var counting := CreateCountingMapBy(numbers);
    r := DeductEach(stocks, stockMap, counting);
  }

  // ---------------------------------------------------------------------
  // Placing the order

  /** `createOrder` gets through: the numbers resolve and every demanded
      entry covers its demand. */
  ghost predicate PlacementSucceeds(productNumbers: seq<string>, catalog: seq<Product>, stocks: seq<Stock>)
    reads stocks
  {
    match FindProductsBy(productNumbers, catalog)
    case Failure(_) => false
    case Success(products) => DeductionSucceeds(products, stocks)
  }

  /** `createOrder` may throw `e`. */
  ghost predicate PlacementMayFailWith(productNumbers: seq<string>, catalog: seq<Product>, stocks: seq<Stock>, e: Exception)
    reads stocks
  {
    match FindProductsBy(productNumbers, catalog)
    case Failure(e') => e == e'
    case Success(products) => DeductionMayFailWith(products, stocks, e)
  }

  /** How many units of `productNumber` the order takes from stock. */
  ghost function PlacementDemand(productNumbers: seq<string>, catalog: seq<Product>, productNumber: string): nat
  {
    match FindProductsBy(productNumbers, catalog)
    case Failure(_) => 0
    case Success(products) => Demand(products, productNumber)
  }

  /** Once the lookup has resolved, placement is deduction on its slots. */
  lemma PlacementUnfolds(productNumbers: seq<string>, catalog: seq<Product>, stocks: seq<Stock>,
                         products: seq<Option<Product>>)
    requires FindProductsBy(productNumbers, catalog) == Success(products)
    ensures PlacementSucceeds(productNumbers, catalog, stocks) <==> DeductionSucceeds(products, stocks)
    ensures forall e :: PlacementMayFailWith(productNumbers, catalog, stocks, e) <==> DeductionMayFailWith(products, stocks, e)
    ensures forall n :: PlacementDemand(productNumbers, catalog, n) == Demand(products, n)
  {
  }

  /** Slots without `null` give one catalog product per requested number. */
  lemma PresentMatches(slots: seq<Option<Product>>, productNumbers: seq<string>, catalog: seq<Product>)
    requires SlotsMatch(slots, productNumbers, catalog) && None !in slots
    ensures |Present(slots)| == |productNumbers|
    ensures forall i | 0 <= i < |productNumbers| ::
      Present(slots)[i] in catalog && Present(slots)[i].productNumber == productNumbers[i]
  {
    var present := Present(slots);
    forall i | 0 <= i < |productNumbers|
      ensures present[i] in catalog && present[i].productNumber == productNumbers[i]
    {
      assert slots[i] == Some(present[i]);
    }
  }

  /** The steps of `createOrder` after the lookup: deduct the stock of the
      resolved products and only then build and save the order. */
  method DeductAndSave(products: seq<Option<Product>>, registeredDateTime: LocalDateTime,
                       stocks: seq<Stock>, orderRepository: OrderRepository)
    returns (r: Result<Order, Exception>)
    modifies stocks, orderRepository
    ensures r.Success? <==> old(DeductionSucceeds(products, stocks))
    ensures r.Success? ==>
      && None !in products
      && r.value == Order(Present(products), registeredDateTime)
      && orderRepository.orders == old(orderRepository.orders) + [r.value]
      && forall s | s in stocks :: s.quantity == old(s.quantity) - Demand(products, s.productNumber)
    ensures r.Failure? ==> old(DeductionMayFailWith(products, stocks, r.error))
    ensures r.Failure? ==>
      && orderRepository.orders == old(orderRepository.orders)
      && forall s | s in stocks :: s.quantity == old(s.quantity)
    ensures forall s | s in stocks :: s.id == old(s.id)
  {
    var deducted := DeductStockQuantities(products, stocks);
    if deducted.Fail? {
      return Failure(deducted.error);
    }
    // no slot is null here: a null slot makes the stock filter throw
    assert ExtractStockProductNumbers(products).Success?;
    var order := Order(Present(products), registeredDateTime);
    orderRepository.Save(order);
    r := Success(order);
  }

  /** `createOrder`: resolve, deduct, and only then build and save the order.
      As one transaction it either saves the order with all stock deducted,
      or throws and leaves the entries and the saved orders as they were. */
  method CreateOrder(request: OrderCreateServiceRequest, registeredDateTime: LocalDateTime,
                     catalog: seq<Product>, stocks: seq<Stock>, orderRepository: OrderRepository)
    returns (r: Result<Order, Exception>)
    modifies stocks, orderRepository
    ensures r.Success? <==> old(PlacementSucceeds(request.productNumbers, catalog, stocks))
    ensures r.Success? ==>
      && |r.value.products| == |request.productNumbers|
      && (forall i | 0 <= i < |request.productNumbers| ::
            r.value.products[i] in catalog && r.value.products[i].productNumber == request.productNumbers[i])
      && r.value.registeredDateTime == registeredDateTime
      && orderRepository.orders == old(orderRepository.orders) + [r.value]
      && forall s | s in stocks ::
           s.quantity == old(s.quantity) - PlacementDemand(request.productNumbers, catalog, s.productNumber)
    ensures r.Failure? ==> old(PlacementMayFailWith(request.productNumbers, catalog, stocks, r.error))
    ensures r.Failure? ==>
      && orderRepository.orders == old(orderRepository.orders)
      && forall s | s in stocks :: s.quantity == old(s.quantity)
    ensures forall s | s in stocks :: s.id == old(s.id)
  {
    var found := FindProductsBy(request.productNumbers, catalog);
    if found.Failure? {
      return Failure(found.error);
    }
    var products := found.value;
    PlacementUnfolds(request.productNumbers, catalog, stocks, products);
    r := DeductAndSave(products, registeredDateTime, stocks, orderRepository);
    if r.Success? {
      PresentMatches(products, request.productNumbers, catalog);
    }
  }

  // ---------------------------------------------------------------------
  // Properties of placement

  /** Exactly one of success and failure is possible, whatever order the
      `HashSet` hands out the numbers in. */
  lemma SuccessExcludesFailure(productNumbers: seq<string>, catalog: seq<Product>, stocks: seq<Stock>)
    ensures PlacementSucceeds(productNumbers, catalog, stocks) ==>
      forall e :: !PlacementMayFailWith(productNumbers, catalog, stocks, e)
    ensures !PlacementSucceeds(productNumbers, catalog, stocks) ==>
      exists e :: PlacementMayFailWith(productNumbers, catalog, stocks, e)
  {
    var found := FindProductsBy(productNumbers, catalog);
    if found.Success? {
      var extracted := ExtractStockProductNumbers(found.value);
      if extracted.Success? {
        var stockMapResult := CreateStockMapBy(stocks, extracted.value);
        if stockMapResult.Success? && !PlacementSucceeds(productNumbers, catalog, stocks) {
          var demand := CreateCountingMapBy(extracted.value);
          var k :| k in demand && !(k in stockMapResult.value && stockMapResult.value[k].quantity >= demand[k]);
          if k !in stockMapResult.value {
            assert PlacementMayFailWith(productNumbers, catalog, stocks, NullPointer);
          } else {
            assert PlacementMayFailWith(productNumbers, catalog, stocks, IllegalArgument(INSUFFICIENT_STOCK));
          }
        } else if stockMapResult.Failure? {
          assert PlacementMayFailWith(productNumbers, catalog, stocks, stockMapResult.error);
        }
      } else {
        assert PlacementMayFailWith(productNumbers, catalog, stocks, extracted.error);
      }
    } else {
      assert PlacementMayFailWith(productNumbers, catalog, stocks, found.error);
    }
  }

  /** A requested number with no catalog product leaves a `null` slot, so the
      stock filter throws before any stock is touched. */
  lemma MissingProductFailsPlacement(productNumbers: seq<string>, catalog: seq<Product>, stocks: seq<Stock>, i: nat)
    requires i < |productNumbers|
    requires forall p | p in catalog :: p.productNumber != productNumbers[i]
    ensures !PlacementSucceeds(productNumbers, catalog, stocks)
    ensures FindProductsBy(productNumbers, catalog).Success? ==>
      && FindProductsBy(productNumbers, catalog).value[i] == None
      && PlacementMayFailWith(productNumbers, catalog, stocks, NullPointer)
  {
    var found := FindProductsBy(productNumbers, catalog);
    if found.Success? {
      assert found.value[i] == None;
      assert None in found.value;
    }
  }

  /** When no requested product is stock-tracked, the placement succeeds
      whatever the stock entries hold and takes nothing from them. */
  lemma NonStockOrderTouchesNoStock(productNumbers: seq<string>, catalog: seq<Product>, stocks: seq<Stock>)
    requires FindProductsBy(productNumbers, catalog).Success?
    requires forall n | n in productNumbers :: exists p | p in catalog :: p.productNumber == n
    requires forall p | p in catalog && p.productNumber in productNumbers :: !IsStockProduct(p)
    ensures PlacementSucceeds(productNumbers, catalog, stocks)
    ensures forall n :: PlacementDemand(productNumbers, catalog, n) == 0
  {
    var products := FindProductsBy(productNumbers, catalog).value;
    forall i | 0 <= i < |products| ensures products[i].Some? && !IsStockProduct(products[i].value) {
      assert productNumbers[i] in productNumbers;
      var p :| p in catalog && p.productNumber == productNumbers[i];
    }
    assert None !in products;
    var present := Present(products);
    FilterNone(present, IsStockProduct);
    var numbers := ExtractStockProductNumbers(products).value;
    assert numbers == [];
    FilterNone(stocks, RequestedStock(numbers));
    assert CreateCountingMapBy(numbers) == map[];
  }

  lemma NumbersOfAppend(xs: seq<Product>, ys: seq<Product>)
    ensures NumbersOf(xs + ys) == NumbersOf(xs) + NumbersOf(ys)
  {
  }

  /** How many of the products carry the number `n`. */
  ghost function CountNumber(products: seq<Product>, n: string): nat
  {
    if products == [] then 0
    else (if products[0].productNumber == n then 1 else 0) + CountNumber(products[1..], n)
  }

  /** The count of a number among the products is its multiplicity among
      their numbers. */
  lemma {:induction false} CountNumberOccurrences(products: seq<Product>, n: string)
    ensures multiset(NumbersOf(products))[n] == CountNumber(products, n)
  {
    if products != [] {
      CountNumberOccurrences(products[1..], n);
      NumbersOfFirst(products);
      CountAppend([products[0].productNumber], NumbersOf(products[1..]), n);
    }
  }

  /** Filtering by stock type keeps all products numbered `n` or none,
      when those products are stock-tracked exactly when `stock` says so. */
  lemma {:induction false} CountNumberFiltered(products: seq<Product>, n: string, stock: bool)
    requires forall p | p in products && p.productNumber == n :: IsStockProduct(p) == stock
    ensures CountNumber(Filter(products, IsStockProduct), n) == if stock then CountNumber(products, n) else 0
  {
    if products != [] {
      var head, tail := products[0], products[1..];
      assert head in products;
      assert forall p | p in tail :: p in products;
      CountNumberFiltered(tail, n, stock);
      FilterFirst(products, IsStockProduct);
      var own := if IsStockProduct(head) then [head] else [];
      CountNumberAppend(own, Filter(tail, IsStockProduct), n);
    }
  }

  lemma {:induction false} CountNumberAppend(xs: seq<Product>, ys: seq<Product>, n: string)
    ensures CountNumber(xs + ys, n) == CountNumber(xs, n) + CountNumber(ys, n)
  {
    if xs == [] {
      assert xs + ys == ys;
    } else {
      assert (xs + ys)[0] == xs[0] && (xs + ys)[1..] == xs[1..] + ys;
      CountNumberAppend(xs[1..], ys, n);
    }
  }

  /** Counting through the filter: when every product numbered `n` is
      stock-tracked exactly when `stock` says so, `n` occurs among the
      stock-tracked numbers as often as among all numbers, or not at all. */
  lemma StockNumbersCount(products: seq<Product>, n: string, stock: bool)
    requires forall p | p in products && p.productNumber == n :: IsStockProduct(p) == stock
    ensures multiset(NumbersOf(Filter(products, IsStockProduct)))[n] ==
      if stock then multiset(NumbersOf(products))[n] else 0
  {
    CountNumberFiltered(products, n, stock);
    CountNumberOccurrences(products, n);
    CountNumberOccurrences(Filter(products, IsStockProduct), n);
  }

  lemma NumbersOfFirst(products: seq<Product>)
    requires products != []
    ensures NumbersOf(products) == [products[0].productNumber] + NumbersOf(products[1..])
  {
  }

  lemma CountAppend(xs: seq<string>, ys: seq<string>, n: string)
    ensures multiset(xs + ys)[n] == multiset(xs)[n] + multiset(ys)[n]
  {
  }

  /** When the lookup has succeeded, the products under a requested number
      are either all stock-tracked or none of them is. */
  lemma StockTrackedConsistently(productNumbers: seq<string>, catalog: seq<Product>, present: seq<Product>, n: string)
    requires FindProductsBy(productNumbers, catalog).Success?
    requires |present| == |productNumbers|
    requires forall i | 0 <= i < |present| :: present[i] in catalog && present[i].productNumber == productNumbers[i]
    ensures forall q | q in present && q.productNumber == n ::
      IsStockProduct(q) == exists p | p in catalog :: p.productNumber == n && IsStockProduct(p)
  {
    forall q | q in present && q.productNumber == n
      ensures IsStockProduct(q) == exists p | p in catalog :: p.productNumber == n && IsStockProduct(p)
    {
      var i :| 0 <= i < |present| && present[i] == q;
      if exists p | p in catalog :: p.productNumber == n && IsStockProduct(p) {
        var p :| p in catalog && p.productNumber == n && IsStockProduct(p);
        RequestedProductIsUnique(productNumbers, catalog, p, q);
      }
    }
  }

  /** On a successful placement, a stock-tracked product loses one unit per
      time its number was requested, and every other entry loses nothing. */
  lemma RequestDemand(productNumbers: seq<string>, catalog: seq<Product>, stocks: seq<Stock>, n: string)
    requires PlacementSucceeds(productNumbers, catalog, stocks)
    ensures PlacementDemand(productNumbers, catalog, n) ==
      if exists p | p in catalog :: p.productNumber == n && IsStockProduct(p)
      then multiset(productNumbers)[n] else 0
  {
    var products := FindProductsBy(productNumbers, catalog).value;
    PlacementUnfolds(productNumbers, catalog, stocks, products);
    assert ExtractStockProductNumbers(products).Success?;
    PresentMatches(products, productNumbers, catalog);
    var present := Present(products);
    StockTrackedConsistently(productNumbers, catalog, present, n);
    StockNumbersCount(present, n, exists p | p in catalog :: p.productNumber == n && IsStockProduct(p));
    assert NumbersOf(present) == productNumbers;
  }

  /** When the lookup succeeds, two catalog products under the same
      requested number are the same product. */
  lemma RequestedProductIsUnique(productNumbers: seq<string>, catalog: seq<Product>, p: Product, q: Product)
    requires FindProductsBy(productNumbers, catalog).Success?
    requires p in catalog && q in catalog
    requires p.productNumber == q.productNumber && p.productNumber in productNumbers
    ensures p == q
  {
    var a :| 0 <= a < |catalog| && catalog[a] == p;
    var b :| 0 <= b < |catalog| && catalog[b] == q;
    assert RequestedProduct(productNumbers)(p) && RequestedProduct(productNumbers)(q);
    assert ProductNumberOf(p) == ProductNumberOf(q);
  }

  /** With product numbers unique in the catalog, as the repository's
      numbering makes them, the lookup never throws and each slot holds the
      catalog's product under the requested number. */
  lemma UniqueCatalogResolves(productNumbers: seq<string>, catalog: seq<Product>)
    requires forall i, j | 0 <= i < j < |catalog| :: catalog[i].productNumber != catalog[j].productNumber
    ensures FindProductsBy(productNumbers, catalog).Success?
    ensures forall k, i | 0 <= k < |productNumbers| && 0 <= i < |catalog| && catalog[i].productNumber == productNumbers[k] ::
      FindProductsBy(productNumbers, catalog).value[k] == Some(catalog[i])
  {
    var slots := FindProductsBy(productNumbers, catalog).value;
    forall k, i | 0 <= k < |productNumbers| && 0 <= i < |catalog| && catalog[i].productNumber == productNumbers[k]
      ensures slots[k] == Some(catalog[i])
    {
      assert catalog[i] in catalog;
      var p := slots[k].value;
      var a :| 0 <= a < |catalog| && catalog[a] == p;
    }
  }

  /** One slot of a lookup in a catalog with unique numbers. */
  lemma ResolvesAt(productNumbers: seq<string>, catalog: seq<Product>, k: nat, i: nat)
    requires forall a, b | 0 <= a < b < |catalog| :: catalog[a].productNumber != catalog[b].productNumber
    requires k < |productNumbers| && i < |catalog| && catalog[i].productNumber == productNumbers[k]
    ensures FindProductsBy(productNumbers, catalog).Success?
    ensures |FindProductsBy(productNumbers, catalog).value| == |productNumbers|
    ensures FindProductsBy(productNumbers, catalog).value[k] == Some(catalog[i])
  {
    UniqueCatalogResolves(productNumbers, catalog);
  }

  /** Three requests for the one product of a catalog fill three slots with it. */
  lemma RepeatedRequestSlots(product: Product)
    ensures var n := product.productNumber;
      FindProductsBy([n, n, n], [product]) == Success([Some(product), Some(product), Some(product)])
  {
    var n := product.productNumber;
    ResolvesAt([n, n, n], [product], 0, 0);
    ResolvesAt([n, n, n], [product], 1, 0);
    ResolvesAt([n, n, n], [product], 2, 0);
    assert FindProductsBy([n, n, n], [product]).value == [Some(product), Some(product), Some(product)];
  }

  /** Three slots holding one stock-tracked product demand its number three times. */
  lemma RepeatedStockNumbers(product: Product)
    requires IsStockProduct(product)
    ensures var n := product.productNumber;
      ExtractStockProductNumbers([Some(product), Some(product), Some(product)]) == Success([n, n, n])
  {
    var slots := [Some(product), Some(product), Some(product)];
    assert None !in slots;
    var present := Present(slots);
    assert present == [product, product, product];
    FilterAll(present, IsStockProduct);
    var n := product.productNumber;
    assert NumbersOf(present) == [n, n, n];
  }

  /** The counting map of one number requested three times. */
  lemma ThreeOfOneCount(n: string)
    ensures CreateCountingMapBy([n, n, n]) == map[n := 3]
  {
    var counts := CreateCountingMapBy([n, n, n]);
    assert multiset([n, n, n])[n] == 3;
    assert counts.Keys == {n};
  }

  /** The stock map over a single entry requested by its own number. */
  lemma SingleStockMap(stock: Stock, numbers: seq<string>)
    requires stock.productNumber in numbers
    ensures CreateStockMapBy([stock], numbers) == Success(map[stock.productNumber := stock])
  {
    assert UniqueKeysWhere([stock], StockNumberOf, RequestedStock(numbers));
    var stockMap := CreateStockMapBy([stock], numbers).value;
    assert stockMap.Keys == {stock.productNumber};
  }

  /** A stock-tracked product whose entry holds fewer than three units cannot
      be ordered three times: the placement throws the insufficient-stock
      exception. */
  lemma ShortStockScenario(product: Product, stock: Stock)
    requires IsStockProduct(product) && stock.productNumber == product.productNumber && stock.quantity < 3
    ensures var n := product.productNumber;
      && !PlacementSucceeds([n, n, n], [product], [stock])
      && PlacementMayFailWith([n, n, n], [product], [stock], IllegalArgument(INSUFFICIENT_STOCK))
  {
    var n := product.productNumber;
    var numbers := [n, n, n];
    var slots := [Some(product), Some(product), Some(product)];
    RepeatedRequestSlots(product);
    PlacementUnfolds(numbers, [product], [stock], slots);
    RepeatedStockNumbers(product);
    ThreeOfOneCount(n);
    SingleStockMap(stock, numbers);
    var stockMap := map[n := stock];
    var demand := map[n := 3];
    assert !Sufficient(stockMap, demand) by {
      assert n in demand && stockMap[n].quantity < demand[n];
    }
    assert DeductionMayFailWith(slots, [stock], IllegalArgument(INSUFFICIENT_STOCK)) by {
      assert n in demand && n in stockMap && stockMap[n].quantity < demand[n];
    }
  }
}
