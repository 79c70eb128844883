/** The product record handed over by the provider, and the ordering of
    the four fields a search result may be sorted by. */
module Products {
  import opened Optional
  import opened Text

  /** One catalog item. Prices and timestamps are integers here (a price in
      the smallest currency unit, a date-time as an instant count): the
      search only ever compares them. */
  datatype Product = Product(
    productId: int,
    name: string,
    productType: string,
    farmId: string,
    quantity: int,
    pricePerUnit: int,
    description: Option<string>,
    harvestDate: int,
    createdAt: Option<int>)

  /** The fields `sort_products` accepts. */
  datatype Field = Name | PricePerUnit | Quantity | HarvestDate

  /** The attribute name a field is requested by. */
  function FieldName(f: Field): string
  {
    match f
    case Name => "name"
    case PricePerUnit => "price_per_unit"
    case Quantity => "quantity"
    case HarvestDate => "harvest_date"
  }

  /** Membership in the set of valid field names; anything else, including
      other attributes of a product, is not a sort field. */
  function ParseField(s: string): (r: Option<Field>)
    ensures r.Some? <==> s in {"name", "price_per_unit", "quantity", "harvest_date"}
    ensures r.Some? ==> FieldName(r.value) == s
  {
    if s == "name" then Some(Name)
    else if s == "price_per_unit" then Some(PricePerUnit)
    else if s == "quantity" then Some(Quantity)
    else if s == "harvest_date" then Some(HarvestDate)
    else None
  }

  /** Every field is recognised under its own name. */
  lemma ParseFieldName(f: Field)
    ensures ParseField(FieldName(f)) == Some(f)
  {
  }

  /** `getattr(a, f) <= getattr(b, f)`: lexicographic for the name,
      numeric or chronological for the others. */
  predicate FieldLe(f: Field, a: Product, b: Product)
  {
    match f
    case Name => LexLe(a.name, b.name)
    case PricePerUnit => a.pricePerUnit <= b.pricePerUnit
    case Quantity => a.quantity <= b.quantity
    case HarvestDate => a.harvestDate <= b.harvestDate
  }

  /** `getattr(a, f) == getattr(b, f)`: the two products tie on the key. */
  predicate SameKey(f: Field, a: Product, b: Product)
  {
    match f
    case Name => a.name == b.name
    case PricePerUnit => a.pricePerUnit == b.pricePerUnit
    case Quantity => a.quantity == b.quantity
    case HarvestDate => a.harvestDate == b.harvestDate
  }

  lemma FieldLeTotal(f: Field, a: Product, b: Product)
    ensures FieldLe(f, a, b) || FieldLe(f, b, a)
  {
    if f == Name {
      LexLeTotal(a.name, b.name);
    }
  }

  lemma FieldLeTransitive(f: Field, a: Product, b: Product, c: Product)
    requires FieldLe(f, a, b) && FieldLe(f, b, c)
    ensures FieldLe(f, a, c)
  {
    if f == Name {
      LexLeTransitive(a.name, b.name, c.name);
    }
  }

  /** Two products tie on a key exactly when each is at most the other. */
  lemma SameKeyIff(f: Field, a: Product, b: Product)
    ensures SameKey(f, a, b) <==> FieldLe(f, a, b) && FieldLe(f, b, a)
  {
    if f == Name {
      LexLeReflexive(a.name);
      if LexLe(a.name, b.name) && LexLe(b.name, a.name) {
        LexLeAntisymmetric(a.name, b.name);
      }
    }
  }
}
