/** `ProductCreateRequest`: the body of a product-creation request, its
    bean-validation constraints, and its conversion to the service request. */
module ProductRequests {
  import opened Wrappers
  import opened ProductTypes
  import opened Products
  import opened ProductService

  /** The request as bound from JSON; `None` stands for a missing (`null`)
      field. A missing `price` binds to 0. */
  datatype ProductCreateRequest = ProductCreateRequest(
    productType: Option<ProductType>,
    sellingStatus: Option<ProductSellingStatus>,
    name: Option<string>,
    price: int)

  /** One failed constraint of the request. */
  datatype Violation = TypeRequired | SellingStatusRequired | NameRequired | PriceNotPositive

  /** The message each constraint reports. */
  function Message(v: Violation): string
  {
    match v
    case TypeRequired => "상품 타입은 필수입니다."
    case SellingStatusRequired => "상품 판매상태는 필수입니다."
    case NameRequired => "상품 이름은 필수입니다."
    case PriceNotPositive => "상품 가격은 양수여야 합니다."
  }

  /** Everything of `s` outside `s[i..j]` is a character up to U+0020. */
  predicate OnlySpacesOutside(s: string, i: nat, j: nat)
    requires i <= j <= |s|
  {
    (forall k | 0 <= k < i :: s[k] <= ' ') && (forall k | j <= k < |s| :: s[k] <= ' ')
  }

  /** `r` is `s` with only characters up to U+0020 cut off its two ends. */
  ghost predicate MiddleOf(s: string, r: string)
  {
    exists i: nat, j: nat | i <= j <= |s| :: r == s[i..j] && OnlySpacesOutside(s, i, j)
  }

  /** Java's `String.trim()`: drop every character up to and including
      U+0020 from both ends. The result is a middle part of `s` that neither
      starts nor ends with such a character. */
  function Trim(s: string): (r: string)
    ensures |r| <= |s|
    ensures MiddleOf(s, r)
    ensures r != [] ==> r[0] > ' ' && r[|r| - 1] > ' '
  {
    if s == [] then
      WholeIsMiddle(s);
      s
    else if s[0] <= ' ' then
      MiddleOfTail(s, Trim(s[1..]));
      Trim(s[1..])
    else if s[|s| - 1] <= ' ' then
      MiddleOfInit(s, Trim(s[..|s| - 1]));
      Trim(s[..|s| - 1])
    else
      WholeIsMiddle(s);
      s
  }

  lemma WholeIsMiddle(s: string)
    ensures MiddleOf(s, s)
  {
    assert s == s[0..|s|] && OnlySpacesOutside(s, 0, |s|);
  }

  /** Cutting a leading space off first does not change what is a middle. */
  lemma MiddleOfTail(s: string, r: string)
    requires s != [] && s[0] <= ' ' && MiddleOf(s[1..], r)
    ensures MiddleOf(s, r)
  {
    var i: nat, j: nat :| i <= j <= |s| - 1 && r == s[1..][i..j] && OnlySpacesOutside(s[1..], i, j);
    assert s[1..][i..j] == s[i + 1..j + 1];
    assert forall k | 1 <= k < |s| :: s[k] == s[1..][k - 1];
    assert OnlySpacesOutside(s, i + 1, j + 1);
  }

  /** Cutting a trailing space off first does not change what is a middle. */
  lemma MiddleOfInit(s: string, r: string)
    requires s != [] && s[|s| - 1] <= ' ' && MiddleOf(s[..|s| - 1], r)
    ensures MiddleOf(s, r)
  {
    var i: nat, j: nat :| i <= j <= |s| - 1 && r == s[..|s| - 1][i..j] && OnlySpacesOutside(s[..|s| - 1], i, j);
    assert s[..|s| - 1][i..j] == s[i..j];
    assert forall k | 0 <= k < |s| - 1 :: s[k] == s[..|s| - 1][k];
    assert OnlySpacesOutside(s, i, j);
  }

  /** `@NotBlank`: the value is present and something is left after
      trimming. */
  predicate NotBlank(name: Option<string>)
  {
    name.Some? && Trim(name.value) != []
  }

  /** A string is blank exactly when every character of it is at most
      U+0020: "", "  " and tabs are all rejected. */
  lemma {:induction false} BlankIffOnlySpaces(s: string)
    ensures Trim(s) == [] <==> forall i | 0 <= i < |s| :: s[i] <= ' '
  {
    if s == [] {
    } else if s[0] <= ' ' {
      BlankIffOnlySpaces(s[1..]);
      assert forall i | 1 <= i < |s| :: s[i] == s[1..][i - 1];
    } else if s[|s| - 1] <= ' ' {
      BlankIffOnlySpaces(s[..|s| - 1]);
      assert forall i | 0 <= i < |s| - 1 :: s[i] == s[..|s| - 1][i];
    } else {
      assert Trim(s) == s;
    }
  }

  lemma NotBlankIffSomeVisible(name: Option<string>)
    ensures !NotBlank(name) <==> name.None? || forall i | 0 <= i < |name.value| :: name.value[i] <= ' '
  {
    if name.Some? {
      BlankIffOnlySpaces(name.value);
    }
  }

  /** The constraints the request fails: `@NotNull` type and selling status,
      `@NotBlank` name, `@Positive` price. */
  function Validate(request: ProductCreateRequest): (violations: set<Violation>)
    ensures TypeRequired in violations <==> request.productType.None?
    ensures SellingStatusRequired in violations <==> request.sellingStatus.None?
    ensures NameRequired in violations <==>
      request.name.None? || forall i | 0 <= i < |request.name.value| :: request.name.value[i] <= ' '
    ensures PriceNotPositive in violations <==> request.price <= 0
  {
    NotBlankIffSomeVisible(request.name);
    (if request.productType.None? then {TypeRequired} else {})
    + (if request.sellingStatus.None? then {SellingStatusRequired} else {})
    + (if !NotBlank(request.name) then {NameRequired} else {})
    + (if request.price <= 0 then {PriceNotPositive} else {})
  }

  /** `toServiceRequest`: every field copied over unchanged. */
  function ToServiceRequest(request: ProductCreateRequest): (r: ProductCreateServiceRequest)
    ensures r.productType == request.productType && r.sellingStatus == request.sellingStatus
    ensures r.name == request.name && r.price == request.price
  {
    ProductCreateServiceRequest(request.productType, request.sellingStatus, request.name, request.price)
  }

  /** A request that passes validation reaches the service complete: its
      product gets a non-blank name and a positive price. */
  lemma ValidRequestIsComplete(request: ProductCreateRequest, productNumber: string)
    requires Validate(request) == {}
    ensures Complete(ToServiceRequest(request))
    ensures exists i | 0 <= i < |request.name.value| :: request.name.value[i] > ' '
    ensures ToEntity(ToServiceRequest(request), productNumber).price > 0
  {
    assert NameRequired !in Validate(request);
  }

  /** A request with only one constraint broken is rejected with that
      constraint's message; a request with none broken is accepted. */
  lemma SingleViolationMessages()
    ensures Validate(ProductCreateRequest(Some(HANDMADE), Some(SELLING), Some("아메리카노"), 4000)) == {}
    ensures var v := Validate(ProductCreateRequest(None, Some(SELLING), Some("아메리카노"), 4000));
      v == {TypeRequired} && Message(TypeRequired) == "상품 타입은 필수입니다."
    ensures var v := Validate(ProductCreateRequest(Some(HANDMADE), None, Some("아메리카노"), 4000));
      v == {SellingStatusRequired} && Message(SellingStatusRequired) == "상품 판매상태는 필수입니다."
    ensures var v := Validate(ProductCreateRequest(Some(HANDMADE), Some(SELLING), Some("아메리카노"), 0));
      v == {PriceNotPositive} && Message(PriceNotPositive) == "상품 가격은 양수여야 합니다."
    ensures var v := Validate(ProductCreateRequest(Some(HANDMADE), Some(SELLING), None, 4000));
      v == {NameRequired} && Message(NameRequired) == "상품 이름은 필수입니다."
    ensures Validate(ProductCreateRequest(Some(HANDMADE), Some(SELLING), Some("  "), 4000)) == {NameRequired}
  {
    var americano := "아메리카노";
    assert americano[0] > ' ';
  }
}
