/** `ProductService`: creating a product under the next sequential product
    number, and listing the products on display. */
module ProductService {
  import opened Wrappers
  import opened Exceptions
  import opened ProductTypes
  import opened Products
  import opened Streams

  // ---------------------------------------------------------------------
  // Java `int` arithmetic and decimal text

  const INT_MIN: int := -0x8000_0000
  const INT_MAX: int := 0x7FFF_FFFF

  /** Two's-complement wrap-around of a 32-bit `int`. */
  function WrapInt(n: int): (r: int)
    ensures INT_MIN <= r <= INT_MAX
    ensures (n - r) % 0x1_0000_0000 == 0
    ensures INT_MIN <= n <= INT_MAX ==> r == n
  {
    (n - INT_MIN) % 0x1_0000_0000 + INT_MIN
  }

  predicate IsDigit(c: char)
  {
    '0' <= c <= '9'
  }

  predicate AllDigits(s: string)
  {
    forall i | 0 <= i < |s| :: IsDigit(s[i])
  }

  function DigitValue(c: char): nat
    requires IsDigit(c)
  {
    c as int - '0' as int
  }

  function DigitChar(d: nat): (c: char)
    requires d < 10
    ensures IsDigit(c) && DigitValue(c) == d
  {
    ('0' as int + d) as char
  }

  /** The value of a string of decimal digits, most significant first. */
  function DigitsValue(s: string): nat
    requires AllDigits(s)
  {
    if s == [] then 0 else DigitsValue(s[..|s| - 1]) * 10 + DigitValue(s[|s| - 1])
  }

  /** The decimal digits of `n` without leading zeros; the value read back
      from them is `n`. */
  function Digits(n: nat): (s: string)
    ensures 1 <= |s| && AllDigits(s) && DigitsValue(s) == n
    ensures n < 10 ==> |s| == 1
    ensures n < 100 ==> |s| <= 2
    ensures n < 1000 ==> |s| <= 3
    ensures n > 0 ==> s[0] != '0'
  {
    if n < 10 then [DigitChar(n)]
    else
      var s := Digits(n / 10) + [DigitChar(n % 10)];
      assert s[..|s| - 1] == Digits(n / 10);
      s
  }

  /** `s` with '0's put in front until it is `width` long. */
  function PadZeros(s: string, width: nat): (r: string)
    decreases width - |s|
  {
    if |s| >= width then s else PadZeros("0" + s, width)
  }

  /** Leading zeros do not change a number, and padding makes the string at
      least `width` long and no longer than it needs to be. */
  lemma {:induction false} PadZerosValue(s: string, width: nat)
    requires AllDigits(s)
    ensures AllDigits(PadZeros(s, width)) && DigitsValue(PadZeros(s, width)) == DigitsValue(s)
    ensures |PadZeros(s, width)| == if |s| >= width then |s| else width
    decreases width - |s|
  {
    if |s| < width {
      LeadingZeroValue(s);
      PadZerosValue("0" + s, width);
    }
  }

  lemma {:induction false} LeadingZeroValue(s: string)
    requires AllDigits(s)
    ensures AllDigits("0" + s) && DigitsValue("0" + s) == DigitsValue(s)
  {
    var z := "0" + s;
    if s != [] {
      assert z[..|z| - 1] == "0" + s[..|s| - 1];
      LeadingZeroValue(s[..|s| - 1]);
    }
  }

  /** `String.format("%03d", n)`: the decimal digits of `n`, zero-padded to a
      width of at least 3; for a negative `n` the sign counts towards the
      width and the zeros go after it. */
  function Format03(n: int): string
  {
    if n < 0 then "-" + PadZeros(Digits(-n), 2) else PadZeros(Digits(n), 3)
  }

  /** The strings `Integer.parseInt` accepts: decimal digits within the
      `int` range, or a '+' followed by such digits, or a '-' followed by
      digits worth at most 2^31. */
  predicate IsIntLiteral(s: string)
  {
    || (s != [] && AllDigits(s) && DigitsValue(s) <= INT_MAX)
    || (|s| >= 2 && s[0] == '+' && AllDigits(s[1..]) && DigitsValue(s[1..]) <= INT_MAX)
    || (|s| >= 2 && s[0] == '-' && AllDigits(s[1..]) && DigitsValue(s[1..]) <= -INT_MIN)
  }

  /** `Integer.parseInt(s)`: an optional '+' or '-' followed by at least one
      decimal digit, whose value fits in an `int`; anything else throws
      `NumberFormatException`. */
  function ParseInt(s: string): (r: Result<int, Exception>)
    ensures r.Success? <==> IsIntLiteral(s)
    ensures r.Success? ==> INT_MIN <= r.value <= INT_MAX
    ensures r.Failure? ==> r.error == NumberFormat(s)
    ensures s != [] && AllDigits(s) && DigitsValue(s) <= INT_MAX ==> r == Success(DigitsValue(s))
    ensures |s| >= 2 && s[0] == '+' && AllDigits(s[1..]) && DigitsValue(s[1..]) <= INT_MAX ==>
      r == Success(DigitsValue(s[1..]))
    ensures |s| >= 2 && s[0] == '-' && AllDigits(s[1..]) && DigitsValue(s[1..]) <= -INT_MIN ==>
      r == Success(0 - DigitsValue(s[1..]) as int)
  {
    var signed := |s| > 0 && (s[0] == '-' || s[0] == '+');
    var body := if signed then s[1..] else s;
    if body == [] || !AllDigits(body) then Failure(NumberFormat(s))
    else
      var v: int := if signed && s[0] == '-' then 0 - DigitsValue(body) as int else DigitsValue(body);
      if v < INT_MIN || v > INT_MAX then Failure(NumberFormat(s)) else Success(v)
  }

  /** `parseInt` reads back what `%03d` writes, for every `int`. */
  lemma FormatParseRoundTrip(n: int)
    requires INT_MIN <= n <= INT_MAX
    ensures ParseInt(Format03(n)) == Success(n)
  {
    if n < 0 {
      var digits := PadZeros(Digits(-n), 2);
      PadZerosValue(Digits(-n), 2);
      assert ("-" + digits)[1..] == digits;
    } else {
      PadZerosValue(Digits(n), 3);
    }
  }

  // ---------------------------------------------------------------------
  // Product numbers

  /** `createNextProductNumber`: "001" for an empty catalog, otherwise the
      latest number plus one, formatted with `%03d`. */
  function CreateNextProductNumber(latestProductNumber: Option<string>): Result<string, Exception>
  {
    match latestProductNumber
    case None => Success("001")
    case Some(latest) =>
      match ParseInt(latest)
      case Failure(e) => Failure(e)
      case Success(n) => Success(Format03(WrapInt(n + 1)))
  }

  /** With no product yet, numbering starts at "001". */
  lemma FirstProductNumber()
    ensures CreateNextProductNumber(None) == Success("001")
  {
  }

  /** The next number reads back as the latest plus one, so it is strictly
      greater, unless the latest is the largest `int`. */
  lemma NextNumberIsSuccessor(latest: string)
    requires ParseInt(latest).Success? && ParseInt(latest).value < INT_MAX
    ensures CreateNextProductNumber(Some(latest)).Success?
    ensures ParseInt(CreateNextProductNumber(Some(latest)).value) == Success(ParseInt(latest).value + 1)
  {
    FormatParseRoundTrip(ParseInt(latest).value + 1);
  }

  /** From "000" to "998" the next number is again three digits, worth one
      more. */
  lemma ThreeDigitSuccessor(latest: string)
    requires |latest| == 3 && AllDigits(latest) && DigitsValue(latest) <= 998
    ensures CreateNextProductNumber(Some(latest)).Success?
    ensures var next := CreateNextProductNumber(Some(latest)).value;
      |next| == 3 && AllDigits(next) && DigitsValue(next) == DigitsValue(latest) + 1
  {
    var n := DigitsValue(latest) + 1;
    assert WrapInt(n) == n;
    PadZerosValue(Digits(n), 3);
  }

  /** `%03d` is only a minimum width: after "999" comes "1000". */
  lemma NextAfter999()
    ensures CreateNextProductNumber(Some("999")) == Success("1000")
  {
    assert DigitsValue("999") == 999 by {
      assert "999"[..2] == "99" && "99"[..1] == "9";
    }
    assert Digits(1000) == "1000" by {
      assert Digits(1) == "1";
      assert Digits(10) == "10";
      assert Digits(100) == "100";
    }
  }

  lemma NextAfter007()
    ensures CreateNextProductNumber(Some("007")) == Success("008")
  {
    assert DigitsValue("007") == 7 by {
      assert "007"[..2] == "00" && "00"[..1] == "0";
    }
    assert PadZeros("8", 3) == "008" by {
      assert PadZeros("8", 3) == PadZeros("08", 3) == PadZeros("008", 3);
    }
  }

  /** A latest number that `parseInt` does not accept ("12a", "0x1F", an
      empty string, a value beyond the `int` range) makes number generation
      throw, so no next number is produced. */
  lemma NonNumericLatestFails(latest: string)
    requires !IsIntLiteral(latest)
    ensures CreateNextProductNumber(Some(latest)) == Failure(NumberFormat(latest))
  {
  }

  /** A latest number holding no digit at all is one of them. */
  lemma {:induction false} DigitFreeIsNotLiteral(latest: string)
    requires forall i | 0 <= i < |latest| :: !IsDigit(latest[i])
    ensures !IsIntLiteral(latest)
  {
    if |latest| > 0 {
      assert !IsDigit(latest[0]);
    }
    if |latest| > 1 {
      assert !IsDigit(latest[1..][0]);
    }
  }

  /** `int` addition wraps: after the largest `int` the next number is the
      smallest one, "-2147483648". */
  lemma NextAfterIntMax(latest: string)
    requires ParseInt(latest) == Success(INT_MAX)
    ensures CreateNextProductNumber(Some(latest)).Success?
    ensures ParseInt(CreateNextProductNumber(Some(latest)).value) == Success(INT_MIN)
  {
    var wrapped := WrapInt(ParseInt(latest).value + 1);
    assert wrapped == INT_MIN;
    FormatParseRoundTrip(wrapped);
  }

  // ---------------------------------------------------------------------
  // Creating and listing products

  /** `ProductCreateServiceRequest`: the fields copied from the web request;
      `None` stands for a `null` field. */
  datatype ProductCreateServiceRequest = ProductCreateServiceRequest(
    productType: Option<ProductType>,
    sellingStatus: Option<ProductSellingStatus>,
    name: Option<string>,
    price: int)

  /** Every field the product needs is present. */
  predicate Complete(request: ProductCreateServiceRequest)
  {
    request.productType.Some? && request.sellingStatus.Some? && request.name.Some?
  }

  /** `toEntity(nextProductNumber)`: the product the request describes, under
      the given number. */
  function ToEntity(request: ProductCreateServiceRequest, productNumber: string): Product
    requires Complete(request)
  {
    Product(productNumber, request.productType.value, request.sellingStatus.value, request.name.value, request.price)
  }

  /** `findLatestProductNumber`: the number of the most recently saved
      product, the catalog being kept in id order. */
  function FindLatestProductNumber(catalog: seq<Product>): Option<string>
  {
    if catalog == [] then None else Some(catalog[|catalog| - 1].productNumber)
  }

  /** `createProduct`: number the request's product and save it. The result
      is the new product and the catalog after the save. */
  function CreateProduct(request: ProductCreateServiceRequest, catalog: seq<Product>): (r: Result<(Product, seq<Product>), Exception>)
    requires Complete(request)
    ensures r.Success? <==> catalog == [] || ParseInt(catalog[|catalog| - 1].productNumber).Success?
    ensures r.Success? ==>
      var (product, saved) := r.value;
      && CreateNextProductNumber(FindLatestProductNumber(catalog)) == Success(product.productNumber)
      && saved == catalog + [product]
      && FindLatestProductNumber(saved) == Some(product.productNumber)
      && product.productType == request.productType.value
      && product.sellingStatus == request.sellingStatus.value
      && product.name == request.name.value
      && product.price == request.price
  {
    match CreateNextProductNumber(FindLatestProductNumber(catalog))
    case Failure(e) => Failure(e)
    case Success(productNumber) =>
      var product := ToEntity(request, productNumber);
      Success((product, catalog + [product]))
  }

  /** Products created one after another from an empty catalog are numbered
      "001", "002", ...: each new number reads back as one more than the
      latest one. */
  lemma CreateProductNumbering(request: ProductCreateServiceRequest, catalog: seq<Product>)
    requires Complete(request)
    requires catalog != [] ==>
      && ParseInt(catalog[|catalog| - 1].productNumber).Success?
      && ParseInt(catalog[|catalog| - 1].productNumber).value < INT_MAX
    ensures CreateProduct(request, catalog).Success?
    ensures var product := CreateProduct(request, catalog).value.0;
      && product.productNumber ==
        (if catalog == [] then "001" else Format03(ParseInt(catalog[|catalog| - 1].productNumber).value + 1))
      && ParseInt(product.productNumber) ==
        (if catalog == [] then Success(1) else Success(ParseInt(catalog[|catalog| - 1].productNumber).value + 1))
  {
    if catalog == [] {
      assert DigitsValue("001") == 1 by {
        assert "001"[..2] == "00" && "00"[..1] == "0";
      }
    } else {
      NextNumberIsSuccessor(catalog[|catalog| - 1].productNumber);
    }
  }

  function Displayed(forDisplay: seq<ProductSellingStatus>): Product -> bool
  {
    (p: Product) => p.sellingStatus in forDisplay
  }

  /** `getSellingProducts`: the catalog's products whose status is one of
      `forDisplay` (`ProductSellingStatus.forDisplay()`), in catalog order. */
  function GetSellingProducts(catalog: seq<Product>, forDisplay: seq<ProductSellingStatus>): (r: seq<Product>)
    ensures forall p | p in r :: p in catalog && p.sellingStatus in forDisplay
    ensures forall p | p in catalog && p.sellingStatus in forDisplay :: p in r
  {
    Filter(catalog, Displayed(forDisplay))
  }

  /** Listing keeps catalog order: the listing of a catalog split in two is
      the two listings one after the other. */
  lemma SellingProductsKeepOrder(first: seq<Product>, second: seq<Product>, forDisplay: seq<ProductSellingStatus>)
    ensures GetSellingProducts(first + second, forDisplay) ==
      GetSellingProducts(first, forDisplay) + GetSellingProducts(second, forDisplay)
  {
    FilterAppend(first, second, Displayed(forDisplay));
  }

  /** With the display set SELLING and HOLD, a product whose sale has stopped
      is never listed. */
  lemma StoppedProductsAreNotListed(catalog: seq<Product>)
    ensures forall p | p in GetSellingProducts(catalog, [SELLING, HOLD]) :: p.sellingStatus != STOP_SELLING
  {
  }
}
