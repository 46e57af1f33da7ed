/** `ProductType`: the three kinds of product the kiosk sells, and which of
    them have their stock tracked. */
module ProductTypes {

  datatype ProductType = HANDMADE | BOTTLE | BAKERY

  /** `ProductType.values()`, in declaration order. */
  const ALL_TYPES: seq<ProductType> := [HANDMADE, BOTTLE, BAKERY]

  /** The display text each constant carries. */
  function Text(t: ProductType): string
  {
    match t
    case HANDMADE => "제조 음료"
    case BOTTLE => "병 음료"
    case BAKERY => "베이커리"
  }

  /** `STOCK_TYPES`: the types whose products have a stock record. */
  const STOCK_TYPES: seq<ProductType> := [BOTTLE, BAKERY]

  /** `ProductType.containsStockType`: membership in `STOCK_TYPES`. */
  predicate ContainsStockType(t: ProductType)
  {
    t in STOCK_TYPES
  }

  /** The stock types are exactly BOTTLE and BAKERY. */
  lemma StockTypesAreBottleAndBakery(t: ProductType)
    ensures ContainsStockType(t) <==> t == BOTTLE || t == BAKERY
  {
  }

  lemma HandmadeIsNotStockType()
    ensures !ContainsStockType(HANDMADE)
  {
  }

  lemma BakeryIsStockType()
    ensures ContainsStockType(BAKERY)
  {
  }

  lemma BottleIsStockType()
    ensures ContainsStockType(BOTTLE)
  {
  }

  /** There are exactly three constants, each listed once, each with its own
      display text. */
  lemma ThreeTypesWithDistinctTexts()
    ensures |ALL_TYPES| == 3
    ensures forall t: ProductType :: t in ALL_TYPES
    ensures forall i, j | 0 <= i < j < |ALL_TYPES| :: ALL_TYPES[i] != ALL_TYPES[j]
    ensures forall t, u: ProductType :: t != u ==> Text(t) != Text(u)
  {
    forall t: ProductType ensures t in ALL_TYPES {
      match t
      case HANDMADE => assert ALL_TYPES[0] == t;
      case BOTTLE => assert ALL_TYPES[1] == t;
      case BAKERY => assert ALL_TYPES[2] == t;
    }
    assert Text(HANDMADE)[0] != Text(BOTTLE)[0] && Text(BOTTLE)[0] != Text(BAKERY)[0] && Text(HANDMADE)[0] != Text(BAKERY)[0];
  }
}
