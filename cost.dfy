/**
 * The cost bands and `calculateCost` (pages/api/analyze.js:5-9, 96-101).
 *
 * `calculateCost` indexes the `COST_RANGES` object with whatever complexity string it is
 * given, so its behaviour is modelled on strings: one of the three own keys gives the
 * rounded midpoint of that band; a property every plain object inherits (`toString`,
 * `constructor`, ...) is not a band, its `min` and `max` read as undefined and the
 * estimate is NaN; any other string reads `min` of undefined, which throws a TypeError.
 */
module Cost {

  /** The three complexity tiers. */
  datatype Tier = Low | Medium | High

  /** The tier as the string the source passes around. */
  function TierName(t: Tier): string
  {
    match t
    case Low => "low"
    case Medium => "medium"
    case High => "high"
  }

  const TierNames: set<string> := {"low", "medium", "high"}

  /** A cost band, `{ min, max }`. */
  datatype Band = Band(min: int, max: int)

  /** `COST_RANGES`. */
  const CostRanges: map<string, Band> :=
    map["low" := Band(100, 300), "medium" := Band(300, 600), "high" := Band(600, 1000)]

  /** The properties a plain JavaScript object inherits from `Object.prototype`. */
  const ObjectPrototypeKeys: set<string> := {
    "constructor", "hasOwnProperty", "isPrototypeOf", "propertyIsEnumerable",
    "toString", "toLocaleString", "valueOf", "__proto__",
    "__defineGetter__", "__defineSetter__", "__lookupGetter__", "__lookupSetter__"
  }

  /** A JavaScript number that is either an integer dollar amount or NaN. */
  datatype Amount = Dollars(value: int) | NaN

  /** The outcome of `calculateCost`: an estimate, or a thrown TypeError. */
  datatype CostLookup = Priced(amount: Amount) | Throws

  /** The cost the source promises for each tier. */
  function TierCost(t: Tier): int
  {
    match t
    case Low => 200
    case Medium => 450
    case High => 800
  }

  /** `Math.round((min + max) / 2)`: the middle of the band, halves rounded up. */
  function Midpoint(b: Band): (m: int)
    ensures b.min + b.max <= 2 * m <= b.min + b.max + 1
    ensures b.min <= b.max ==> b.min <= m <= b.max
  {
    (b.min + b.max + 1) / 2
  }

  /** `calculateCost(complexity)`. */
  function CalculateCost(complexity: string): (c: CostLookup)
    ensures forall t :: complexity == TierName(t) ==> c == Priced(Dollars(TierCost(t)))
  {
    if complexity in CostRanges then Priced(Dollars(Midpoint(CostRanges[complexity])))
    else if complexity in ObjectPrototypeKeys then Priced(NaN)
    else Throws
  }

  lemma TierNamesAreTheKeys()
    ensures CostRanges.Keys == TierNames
    ensures forall k :: k in TierNames <==> exists t :: TierName(t) == k
  {
    assert TierName(Low) == "low" && TierName(Medium) == "medium" && TierName(High) == "high";
  }

  /** Each tier's cost lies inside its own band. */
  lemma TierCostInBand(t: Tier)
    ensures var b := CostRanges[TierName(t)];
      b.min <= TierCost(t) <= b.max
  {
  }

  /** A dollar estimate comes only from the three tiers; every other key is NaN or throws. */
  lemma {:induction false} PricedMeansTier(complexity: string)
    ensures CalculateCost(complexity).Priced? && CalculateCost(complexity).amount.Dollars?
        <==> complexity in TierNames
    ensures CalculateCost(complexity) == Priced(NaN) <==> complexity in ObjectPrototypeKeys
    ensures CalculateCost(complexity) == Throws
        <==> complexity !in TierNames && complexity !in ObjectPrototypeKeys
  {
    assert CostRanges.Keys == TierNames;
    assert TierNames !! ObjectPrototypeKeys;
  }
}
