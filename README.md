# Cafe kiosk: order placement and product numbering

This project models the core of a cafe-kiosk backend: placing an order and
keeping stock, and creating and listing products. It is written in Dafny.

- **Placing an order** (`OrderService.createOrder`). The service:
  - looks the requested product numbers up in the catalog, keeping request order and duplicates;
  - keeps the products whose type is stock-tracked (bottled drinks and bakery);
  - counts how often each stock-tracked number is demanded;
  - checks each stock entry against its demand and deducts it, in `HashSet` order;
  - only then saves the order.

  The whole call is one transaction: when it throws, every deduction is undone.
- **A stock entry** (`Stock`): a mutable counter. Its `deductQuantity` throws when the quantity is below the requested amount, and otherwise subtracts that amount.
- **Product types** (`ProductType`): three types with display texts, and the stock-tracked subset.
- **Product numbers** (`ProductService.createNextProductNumber`): "001" for the first product, otherwise the latest number parsed with `Integer.parseInt`, plus one, formatted with `%03d`.
- **Creating and listing products** (`createProduct`, `getSellingProducts`).
- **The product-creation request** (`ProductCreateRequest`): its four bean-validation constraints and its conversion to the service request.

The model has one module per file:

| module | file | contents |
|---|---|---|
| `Wrappers` | Wrappers.dfy | `Option`, `Result`, `Outcome` |
| `Exceptions` | Exceptions.dfy | the Java exceptions the core can throw, and its two messages |
| `ProductTypes` | ProductType.dfy | the `ProductType` enum and `containsStockType` |
| `Products` | Product.dfy | the `Product` record and `ProductSellingStatus` |
| `Stocks` | Stock.dfy | the `Stock` class |
| `Streams` | Streams.dfy | `Stream.filter` and `Collectors.toMap` as functions |
| `OrderService` | OrderService.dfy | order placement |
| `ProductService` | ProductService.dfy | `parseInt`, `%03d`, numbering, creating and listing products |
| `ProductRequests` | ProductCreateRequest.dfy | request validation and conversion |

How the model represents the source:
- **Stock entries** are `Stock` objects in a sequence. `deductQuantity` is a method that changes `quantity` in place.
- **Stock deduction** is a method. Its loop takes the pending numbers in an arbitrary order, which stands for the `HashSet` iteration.
- **The transaction.** The lookup, the null check and the stock lookup can throw before any quantity changes. The deduction loop takes a snapshot of the quantities before it starts, and when it throws it puts the snapshot back.
- **Order placement** is specified by ghost predicates: when it succeeds, and which exceptions it may throw.
- **The product store** is a sequence of products in id order. The latest product number is the number of its last element.
- **The saved orders** are a sequence field of an `OrderRepository` object.
- **Java exceptions** are `Failure` and `Fail` values:
  - `IllegalArgument` with the source's messages;
  - `DuplicateKey` for the `IllegalStateException` that `Collectors.toMap` throws on a repeated key;
  - `NullPointer`;
  - `NumberFormat`.
- **A Java `null`** is `None`. This covers a missing product in a lookup slot and a missing request field.

Behaviour worth knowing:
- **Next product number.** The number comes from the most recently saved product, the one with the highest id. It is not the highest number in the store.
- **An unknown product number.** The lookup leaves a `null` slot for it. The stock filter then calls `getType` on that slot and throws a `NullPointerException`; there is no "product not found" error.
- **A stock-tracked product with no stock entry.** The deduction loop dereferences the missing entry and throws a `NullPointerException`, not the insufficient-stock exception.

## Model

| member | source | states |
|---|---|---|
| ProductTypes.StockTypesAreBottleAndBakery | src/main/java/sample/cafekiosk/spring/domain/product/ProductType.java:18-23 | a type is stock-tracked exactly when it is BOTTLE or BAKERY |
| ProductTypes.HandmadeIsNotStockType | src/test/java/sample/cafekiosk/spring/domain/product/ProductTypeTest.java:42-53 | HANDMADE is not stock-tracked |
| ProductTypes.BakeryIsStockType | src/test/java/sample/cafekiosk/spring/domain/product/ProductTypeTest.java:55-66 | BAKERY is stock-tracked |
| ProductTypes.BottleIsStockType | src/test/java/sample/cafekiosk/spring/domain/product/ProductTypeTest.java:17-40 | BOTTLE is stock-tracked |
| ProductTypes.ThreeTypesWithDistinctTexts | src/main/java/sample/cafekiosk/spring/domain/product/ProductType.java:12-16 | there are exactly three types, all distinct, and their display texts are pairwise different |
| Stocks.Stock.Create | src/main/java/sample/cafekiosk/spring/domain/stock/Stock.java:31-36 | the new entry has exactly the given product number and quantity, and no id yet |
| Stocks.Stock.DeductQuantity | src/main/java/sample/cafekiosk/spring/domain/stock/Stock.java:38-52 | throws "차감할 재고 수량이 없습니다." exactly when the quantity is below the amount, and then leaves the quantity unchanged; otherwise subtracts the amount, and the quantity stays non-negative; a negative amount increases the quantity; the id and product number never change |
| Streams.Filter | src/main/java/sample/cafekiosk/spring/api/service/order/OrderService.java:95-100 | the result keeps exactly the elements that pass the test, and takes nothing else from the input |
| Streams.FilterAppend | src/main/java/sample/cafekiosk/spring/api/service/order/OrderService.java:95-100 | filtering keeps relative order: it distributes over concatenation |
| Streams.FilterUniqueKeys | src/main/java/sample/cafekiosk/spring/api/service/order/OrderService.java:66-69 | the filtered elements have distinct keys exactly when the elements of the input that pass the test do |
| Streams.ToMap | src/main/java/sample/cafekiosk/spring/api/service/order/OrderService.java:68-69 | collecting by key succeeds exactly when the keys are distinct; the map then holds every element under its key; otherwise it throws a duplicate-key exception naming a key that occurs twice |
| Streams.ToMapValues | src/main/java/sample/cafekiosk/spring/api/service/order/OrderService.java:68-69 | every value of the collected map is an input element filed under its own key |
| OrderService.OrderRepository.Save | src/main/java/sample/cafekiosk/spring/api/service/order/OrderService.java:60-61 | the saved orders grow by exactly the new order |
| OrderService.FindProductsBy | src/main/java/sample/cafekiosk/spring/api/service/order/OrderService.java:66-74 | the lookup throws a duplicate-key exception, naming a requested number, exactly when two catalog products share a requested number; otherwise there is one slot per requested number in request order, holding a catalog product with that number, or null when the catalog has none |
| OrderService.ExtractStockProductNumbers | src/main/java/sample/cafekiosk/spring/api/service/order/OrderService.java:95-100 | throws a NullPointerException exactly when a slot is null; otherwise yields, in order and with duplicates, the numbers of the stock-tracked products |
| OrderService.CreateCountingMapBy | src/main/java/sample/cafekiosk/spring/api/service/order/OrderService.java:108-111 | one key per distinct number, whose value is the number of times it occurs |
| OrderService.CountingMapTotal | src/main/java/sample/cafekiosk/spring/api/service/order/OrderService.java:108-111 | the counts add up to the length of the list |
| OrderService.CreateStockMapBy | src/main/java/sample/cafekiosk/spring/api/service/order/OrderService.java:102-106 | throws a duplicate-key exception exactly when two stock entries share a requested number; otherwise maps each requested number that has an entry to that entry, and nothing else |
| OrderService.Rollback | src/main/java/sample/cafekiosk/spring/api/service/order/OrderService.java:41 | every entry gets back the quantity it had when the transaction started |
| OrderService.DeductEach | src/main/java/sample/cafekiosk/spring/api/service/order/OrderService.java:83-91 | the loop gets through exactly when every demanded number has an entry holding at least its demand, and then each entry drops by its demand; otherwise it throws NullPointerException for a missing entry or "재고가 부족한 상품이 있습니다." for a short one, and every quantity is restored; whether it gets through does not depend on the iteration order |
| OrderService.DeductStockQuantities | src/main/java/sample/cafekiosk/spring/api/service/order/OrderService.java:76-92 | succeeds exactly when the stock products resolve, their entries are unique, and every demanded entry covers its demand; each entry then drops by the number of times its product was ordered; on failure it throws one of the possible exceptions and no quantity changes |
| OrderService.DeductAndSave | src/main/java/sample/cafekiosk/spring/api/service/order/OrderService.java:58-61 | after the lookup, the order is saved exactly when the deduction succeeds; it then holds the looked-up products and the given time, and each entry drops by its demand; otherwise nothing is saved and no quantity changes |
| OrderService.CreateOrder | src/main/java/sample/cafekiosk/spring/api/service/order/OrderService.java:53-64 | succeeds exactly when the lookup and the deduction do; on success the order holds one catalog product per requested number, in request order, carries the given time, and is saved, and every entry drops by its demand; on failure nothing is saved and no quantity changes |
| OrderService.SuccessExcludesFailure | src/main/java/sample/cafekiosk/spring/api/service/order/OrderService.java:53-92 | a placement succeeds exactly when there is no exception it may throw |
| OrderService.MissingProductFailsPlacement | src/main/java/sample/cafekiosk/spring/api/service/order/OrderService.java:71-73 | a requested number missing from the catalog leaves a null slot, and the placement fails with a NullPointerException before any stock is touched |
| OrderService.NonStockOrderTouchesNoStock | src/main/java/sample/cafekiosk/spring/api/service/order/OrderService.java:95-100 | an order of products that are not stock-tracked succeeds whatever the stock holds, and takes nothing from it |
| OrderService.StockNumbersCount | src/main/java/sample/cafekiosk/spring/api/service/order/OrderService.java:95-100 | a number occurs among the stock-tracked numbers as often as among all numbers if its product is stock-tracked, and not at all otherwise |
| OrderService.RequestDemand | src/main/java/sample/cafekiosk/spring/api/service/order/OrderService.java:76-91 | on success a stock-tracked product's entry loses one unit per time its number was requested, and other entries lose nothing |
| OrderService.UniqueCatalogResolves | src/main/java/sample/cafekiosk/spring/api/service/order/OrderService.java:66-74 | with unique product numbers in the catalog, the lookup never throws, and each slot holds the catalog product with the requested number |
| OrderService.ShortStockScenario | src/main/java/sample/cafekiosk/spring/api/service/order/OrderService.java:83-91 | a stock-tracked product with fewer than three units, ordered three times, makes the placement fail, and "재고가 부족한 상품이 있습니다." is an exception it may throw |
| ProductService.WrapInt | src/main/java/sample/cafekiosk/spring/api/service/product/ProductService.java:69 | `int` addition wraps: the result lies in the 32-bit range, differs from the exact sum by a multiple of 2^32, and equals it within the range |
| ProductService.Digits | src/main/java/sample/cafekiosk/spring/api/service/product/ProductService.java:71 | the decimal digits of a number read back as that number, with no leading zero; below 1000 there are at most three |
| ProductService.ParseInt | src/main/java/sample/cafekiosk/spring/api/service/product/ProductService.java:68 | `Integer.parseInt` succeeds exactly on an optional sign followed by at least one decimal digit whose signed value fits in an `int`, and then yields that signed value; otherwise it throws NumberFormatException naming its input |
| ProductService.FormatParseRoundTrip | src/main/java/sample/cafekiosk/spring/api/service/product/ProductService.java:68-71 | `parseInt` reads back every `int` that `%03d` writes |
| ProductService.FirstProductNumber | src/main/java/sample/cafekiosk/spring/api/service/product/ProductService.java:64-66 | with no product yet, the number is "001" |
| ProductService.NextNumberIsSuccessor | src/main/java/sample/cafekiosk/spring/api/service/product/ProductService.java:68-71 | the next number parses to the latest plus one, so it is strictly greater |
| ProductService.ThreeDigitSuccessor | src/main/java/sample/cafekiosk/spring/api/service/product/ProductService.java:68-71 | after "000" to "998" the next number has exactly three digits and is worth one more |
| ProductService.NextAfter999 | src/main/java/sample/cafekiosk/spring/api/service/product/ProductService.java:71 | after "999" comes "1000": three digits are a minimum width, not a bound |
| ProductService.NextAfter007 | src/main/java/sample/cafekiosk/spring/api/service/product/ProductService.java:68-71 | after "007" comes "008" |
| ProductService.NextAfterIntMax | src/main/java/sample/cafekiosk/spring/api/service/product/ProductService.java:68-71 | after the largest `int` the next number wraps round and reads back as the smallest `int` |
| ProductService.NonNumericLatestFails | src/main/java/sample/cafekiosk/spring/api/service/product/ProductService.java:68 | any latest number that `parseInt` rejects ("12a", "0x1F", "", or a value beyond the `int` range) makes the number generation throw NumberFormatException |
| ProductService.DigitFreeIsNotLiteral | src/main/java/sample/cafekiosk/spring/api/service/product/ProductService.java:68 | a string with no decimal digit is never accepted by `parseInt` |
| ProductService.CreateProduct | src/main/java/sample/cafekiosk/spring/api/service/product/ProductService.java:43-50 | succeeds exactly when there is no product yet or the latest number parses; the new product carries the number `createNextProductNumber` generates and the request's type, status, name and price, and is saved last |
| ProductService.CreateProductNumbering | src/main/java/sample/cafekiosk/spring/api/service/product/ProductService.java:43-50 | products created one after another are numbered "001", then `%03d` of the latest number plus one, so each new number reads back as one more than the latest |
| ProductService.GetSellingProducts | src/main/java/sample/cafekiosk/spring/api/service/product/ProductService.java:53-58 | lists exactly the products whose status is in the display set |
| ProductService.SellingProductsKeepOrder | src/main/java/sample/cafekiosk/spring/api/service/product/ProductService.java:53-58 | the listing keeps the repository's order |
| ProductService.StoppedProductsAreNotListed | src/main/java/sample/cafekiosk/spring/domain/product/ProductRepository.java:13-15 | with the display set SELLING and HOLD, no product whose sale has stopped is listed |
| ProductRequests.Trim | src/main/java/sample/cafekiosk/spring/api/controller/product/dto/request/ProductCreateRequest.java:29 | trimming returns the part of the name left once only characters up to U+0020 are cut off its two ends, and that part neither starts nor ends with such a character |
| ProductRequests.BlankIffOnlySpaces | src/main/java/sample/cafekiosk/spring/api/controller/product/dto/request/ProductCreateRequest.java:27-29 | a name is blank exactly when every character is at most U+0020 |
| ProductRequests.NotBlankIffSomeVisible | src/main/java/sample/cafekiosk/spring/api/controller/product/dto/request/ProductCreateRequest.java:29-30 | a name fails @NotBlank exactly when it is null or has only characters up to U+0020 |
| ProductRequests.Validate | src/main/java/sample/cafekiosk/spring/api/controller/product/dto/request/ProductCreateRequest.java:18-33 | the request fails the type rule exactly when the type is null, the status rule exactly when the status is null, the name rule exactly when the name is null or blank, and the price rule exactly when the price is not positive; name length is not limited |
| ProductRequests.ToServiceRequest | src/main/java/sample/cafekiosk/spring/api/controller/product/dto/request/ProductCreateRequest.java:43-50 | name, type, price and selling status are copied unchanged |
| ProductRequests.ValidRequestIsComplete | src/main/java/sample/cafekiosk/spring/api/controller/product/dto/request/ProductCreateRequest.java:18-50 | a request that passes validation gives the service every field it needs, a non-blank name and a positive price |
| ProductRequests.SingleViolationMessages | src/test/java/sample/cafekiosk/spring/api/controller/product/ProductControllerTest.java:42-158 | a request with all four fields valid passes; a missing type, missing status, zero price, missing name or all-blank name each breaks exactly its own rule, and the type, status, price and name rules report "상품 타입은 필수입니다.", "상품 판매상태는 필수입니다.", "상품 가격은 양수여야 합니다." and "상품 이름은 필수입니다." |

## Left out

- HTTP controllers, JSON response envelopes and the controller advice that turns a violation into a 400 response are not part of this model. Which message is reported when several rules fail at once is up to the validator, so `Validate` returns the set of failed rules.
- Mail sending is not part of this model; it is an external client.
- Locking and concurrency are left out: the source only discusses them in comments. The model is sequential, and concurrent placements are not modelled.
- `Order.create`, the total price, `OrderResponse` and `ProductResponse` are not part of this model, because their source is not part of it. An order is modelled as its products and its time.
- The one-argument `createOrder` and the total price of 400 in the order service test are left out. That test does not match the service's current signature.
- Storage-assigned ids are not generated: a `Stock`'s `id` is only shown to be left alone.
- The repositories' queries are modelled as filters over the stored sequences, returning rows in storage order. The native query for the latest number is modelled as the last product of the id-ordered store.
- `ProductSellingStatus` and `Product` are not part of this model's sources. Their fields and the constant `STOP_SELLING` are assumed. The display set `forDisplay()` is a parameter; the lemmas use SELLING and HOLD.
- `LocalDateTime` is opaque, and the clock is a parameter of `CreateOrder`.
- The order request's non-empty-list constraint is left out: its request class is not part of this model.
- OrderService.DeductEach: the demand is an unbounded count. The `Long.intValue()` truncation would only matter for an order of more than 2^31 items.
- Stocks.Stock.DeductQuantity: the subtraction is unbounded, so 32-bit wrap-around when a negative amount pushes the quantity past the `int` range is not modelled.
- ProductService.ParseInt: only ASCII digits are accepted, while `Integer.parseInt` also accepts other Unicode decimal digits.
- ProductService.Digits: `%03d` is modelled with ASCII digits, which assumes a default locale whose digits are ASCII.
- ProductService.CreateProduct: it requires the type, status and name to be present. In the source, validation of the web request guarantees this before the service runs; see `ProductRequests.ValidRequestIsComplete`.
