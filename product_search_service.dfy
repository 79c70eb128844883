/** `ProductSearchService`: narrows the provider's product list by up to
    seven optional criteria, and sorts a product list by one of four
    fields. The provider call is replaced by its result, `provider`. */
module ProductSearchService {
  import opened Optional
  import opened Text
  import opened Sequences
  import opened Products

  /** The seven optional arguments of `search`; `None` means "not given". */
  datatype Criteria = Criteria(
    name: Option<string>,
    minPrice: Option<int>,
    maxPrice: Option<int>,
    minQuantity: Option<int>,
    maxQuantity: Option<int>,
    harvestStart: Option<int>,
    harvestEnd: Option<int>)

  /** One filtering pass of `search`, with its bound. */
  datatype Criterion =
    | NameLike(needle: string)
    | MinPrice(price: int)
    | MaxPrice(price: int)
    | MinQuantity(quantity: int)
    | MaxQuantity(quantity: int)
    | HarvestFrom(start: int)
    | HarvestUntil(end: int)

  /** The condition of one pass's list comprehension. */
  predicate Holds(k: Criterion, p: Product)
  {
    match k
    case NameLike(needle) => Contains(Lower(p.name), Lower(needle))
    case MinPrice(price) => p.pricePerUnit >= price
    case MaxPrice(price) => p.pricePerUnit <= price
    case MinQuantity(quantity) => p.quantity >= quantity
    case MaxQuantity(quantity) => p.quantity <= quantity
    case HarvestFrom(start) => p.harvestDate >= start
    case HarvestUntil(end) => p.harvestDate <= end
  }

  /** `[p for p in s if <k holds of p>]`. */
  function Keep(s: seq<Product>, k: Criterion): seq<Product>
    decreases |s|
  {
    if s == [] then []
    else (if Holds(k, s[0]) then [s[0]] else []) + Keep(s[1..], k)
  }

  /** Python's truthiness of the `name` argument: `None` and `""` are false. */
  predicate NameGiven(name: Option<string>)
  {
    name.Some? && name.value != ""
  }

  /** A pass that runs only when its argument was given (`if x is not None:`). */
  function Narrow(s: seq<Product>, k: Option<Criterion>): seq<Product>
  {
    match k
    case None => s
    case Some(k) => Keep(s, k)
  }

  /** `Narrow` keeps what the criterion, if any, allows. */
  predicate Allows(k: Option<Criterion>, p: Product)
  {
    k.None? || Holds(k.value, p)
  }

  /** The seven passes of `search`, in the source's order, each present
      only when its argument was given: `if name:` for the name, `if x is
      not None:` for each bound. */
  function Passes(c: Criteria): seq<Option<Criterion>>
  {
    [ if NameGiven(c.name) then Some(NameLike(c.name.value)) else None,
      if c.minPrice.Some? then Some(MinPrice(c.minPrice.value)) else None,
      if c.maxPrice.Some? then Some(MaxPrice(c.maxPrice.value)) else None,
      if c.minQuantity.Some? then Some(MinQuantity(c.minQuantity.value)) else None,
      if c.maxQuantity.Some? then Some(MaxQuantity(c.maxQuantity.value)) else None,
      if c.harvestStart.Some? then Some(HarvestFrom(c.harvestStart.value)) else None,
      if c.harvestEnd.Some? then Some(HarvestUntil(c.harvestEnd.value)) else None ]
  }

  /** Runs the passes one after another, each on the previous result. */
  function NarrowAll(s: seq<Product>, passes: seq<Option<Criterion>>): seq<Product>
    decreases |passes|
  {
    if passes == [] then s else NarrowAll(Narrow(s, passes[0]), passes[1..])
  }

  /** A product every pass keeps. */
  predicate AllowsAll(passes: seq<Option<Criterion>>, p: Product)
  {
    forall i :: 0 <= i < |passes| ==> Allows(passes[i], p)
  }

  /** `search`: the seven passes, in the source's order, starting from the
      provider's list. */
  function Search(provider: seq<Product>, c: Criteria): seq<Product>
  {
    NarrowAll(provider, Passes(c))
  }

  /** What it means for a product to pass every given criterion; all bounds
      are inclusive and a blank name constrains nothing. */
  predicate Satisfies(c: Criteria, p: Product)
  {
    && (NameGiven(c.name) ==> Contains(Lower(p.name), Lower(c.name.value)))
    && (c.minPrice.Some? ==> c.minPrice.value <= p.pricePerUnit)
    && (c.maxPrice.Some? ==> p.pricePerUnit <= c.maxPrice.value)
    && (c.minQuantity.Some? ==> c.minQuantity.value <= p.quantity)
    && (c.maxQuantity.Some? ==> p.quantity <= c.maxQuantity.value)
    && (c.harvestStart.Some? ==> c.harvestStart.value <= p.harvestDate)
    && (c.harvestEnd.Some? ==> p.harvestDate <= c.harvestEnd.value)
  }

  /** No argument given (a blank name counts as not given). */
  predicate NoCriteria(c: Criteria)
  {
    !NameGiven(c.name) && c.minPrice.None? && c.maxPrice.None? && c.minQuantity.None?
    && c.maxQuantity.None? && c.harvestStart.None? && c.harvestEnd.None?
  }

  /** `more` gives every argument `less` gives, with the same value, and
      possibly others. */
  predicate Extends(more: Criteria, less: Criteria)
  {
    && (NameGiven(less.name) ==> more.name == less.name)
    && (less.minPrice.Some? ==> more.minPrice == less.minPrice)
    && (less.maxPrice.Some? ==> more.maxPrice == less.maxPrice)
    && (less.minQuantity.Some? ==> more.minQuantity == less.minQuantity)
    && (less.maxQuantity.Some? ==> more.maxQuantity == less.maxQuantity)
    && (less.harvestStart.Some? ==> more.harvestStart == less.harvestStart)
    && (less.harvestEnd.Some? ==> more.harvestEnd == less.harvestEnd)
  }

  /** One pass over a list that may start with `x`: `x` stays exactly when
      it was there and passes, and the rest is the pass over the rest. */
  lemma NarrowGuarded(b: bool, x: Product, t: seq<Product>, k: Option<Criterion>)
    ensures Narrow((if b then [x] else []) + t, k)
         == (if b && Allows(k, x) then [x] else []) + Narrow(t, k)
  {
    match k
    case None =>
    case Some(k) =>
      if b {
        assert ([x] + t)[0] == x && ([x] + t)[1..] == t;
      } else {
        assert [] + t == t;
      }
  }

  /** Several passes over a list that may start with `x`: `x` stays exactly
      when it was there and every pass keeps it. */
  lemma {:induction false} NarrowAllGuarded(b: bool, x: Product, t: seq<Product>, passes: seq<Option<Criterion>>)
    ensures NarrowAll((if b then [x] else []) + t, passes)
         == (if b && AllowsAll(passes, x) then [x] else []) + NarrowAll(t, passes)
    decreases |passes|
  {
    if passes == [] {
      assert AllowsAll(passes, x);
    } else {
      NarrowGuarded(b, x, t, passes[0]);
      var b' := b && Allows(passes[0], x);
      NarrowAllGuarded(b', x, Narrow(t, passes[0]), passes[1..]);
      assert AllowsAll(passes, x) <==> Allows(passes[0], x) && AllowsAll(passes[1..], x) by {
        if Allows(passes[0], x) && AllowsAll(passes[1..], x) {
          forall i | 0 <= i < |passes|
            ensures Allows(passes[i], x)
          {
            if i > 0 {
              assert passes[i] == passes[1..][i - 1];
            }
          }
        }
      }
    }
  }

  /** Keeping what every pass allows is keeping what satisfies the criteria. */
  lemma SatisfiesAllPasses(c: Criteria, p: Product)
    ensures AllowsAll(Passes(c), p) == Satisfies(c, p)
  {
    var ks := Passes(c);
    assert AllowsAll(ks, p) <==> (Allows(ks[0], p) && Allows(ks[1], p) && Allows(ks[2], p)
      && Allows(ks[3], p) && Allows(ks[4], p) && Allows(ks[5], p) && Allows(ks[6], p));
  }

  /** `search` treats the provider's first product independently of the
      others: it is kept exactly when it satisfies every given criterion. */
  lemma SearchCons(x: Product, t: seq<Product>, c: Criteria)
    ensures Search([x] + t, c) == (if Satisfies(c, x) then [x] else []) + Search(t, c)
  {
    assert [x] + t == (if true then [x] else []) + t;
    NarrowAllGuarded(true, x, t, Passes(c));
    SatisfiesAllPasses(c, x);
  }

  lemma {:induction false} NarrowAllEmpty(passes: seq<Option<Criterion>>)
    ensures NarrowAll([], passes) == []
    decreases |passes|
  {
    if passes != [] {
      NarrowAllEmpty(passes[1..]);
    }
  }

  /** An empty provider list gives an empty result. */
  lemma SearchEmpty(c: Criteria)
    ensures Search([], c) == []
  {
    NarrowAllEmpty(Passes(c));
  }

  /** Passes whose arguments are all absent change nothing. */
  lemma {:induction false} NarrowAllAbsent(s: seq<Product>, passes: seq<Option<Criterion>>)
    requires forall i :: 0 <= i < |passes| ==> passes[i].None?
    ensures NarrowAll(s, passes) == s
    decreases |passes|
  {
    if passes != [] {
      NarrowAllAbsent(s, passes[1..]);
    }
  }

  /** Soundness and completeness: a product is in the result exactly when
      the provider listed it and it satisfies every given criterion. */
  lemma {:induction false} SearchMembership(provider: seq<Product>, c: Criteria, p: Product)
    ensures p in Search(provider, c) <==> p in provider && Satisfies(c, p)
    decreases |provider|
  {
    if provider == [] {
      SearchEmpty(c);
    } else {
      assert provider == [provider[0]] + provider[1..];
      SearchCons(provider[0], provider[1..], c);
      SearchMembership(provider[1..], c, p);
    }
  }

  /** No product is added or duplicated: each one appears as often as the
      provider listed it if it satisfies the criteria, and not at all
      otherwise. */
  lemma {:induction false} SearchMultiplicity(provider: seq<Product>, c: Criteria, p: Product)
    ensures multiset(Search(provider, c))[p] == if Satisfies(c, p) then multiset(provider)[p] else 0
    decreases |provider|
  {
    if provider == [] {
      SearchEmpty(c);
    } else {
      var x, t := provider[0], provider[1..];
      assert provider == [x] + t;
      SearchCons(x, t, c);
      SearchMultiplicity(t, c, p);
    }
  }

  /** The result keeps the provider's relative order: it is the provider's
      list with some products deleted. */
  lemma {:induction false} SearchSubsequence(provider: seq<Product>, c: Criteria)
    ensures Subsequence(Search(provider, c), provider)
    decreases |provider|
  {
    if provider == [] {
      SearchEmpty(c);
    } else {
      var x, t := provider[0], provider[1..];
      assert provider == [x] + t;
      SearchCons(x, t, c);
      SearchSubsequence(t, c);
      SubsequenceCons(Search(t, c), t, x);
      assert [] + Search(t, c) == Search(t, c);
    }
  }

  /** A name pass with a blank needle would keep every product, so skipping
      it for a blank name (`if name:`) does not change the result. */
  lemma {:induction false} BlankNameKeepsAll(s: seq<Product>)
    ensures Keep(s, NameLike("")) == s
    decreases |s|
  {
    if s != [] {
      EmptyContained(Lower(s[0].name));
      assert Lower("") == "";
      BlankNameKeepsAll(s[1..]);
      assert s == [s[0]] + s[1..];
    }
  }

  /** With no argument given (or only a blank name), `search` returns the
      provider's list itself. */
  lemma SearchNoCriteria(provider: seq<Product>, c: Criteria)
    requires NoCriteria(c)
    ensures Search(provider, c) == provider
  {
    NarrowAllAbsent(provider, Passes(c));
  }

  /** A product passing the extended criteria passes the original ones. */
  lemma ExtendsSatisfies(more: Criteria, less: Criteria, p: Product)
    requires Extends(more, less) && Satisfies(more, p)
    ensures Satisfies(less, p)
  {
  }

  /** Giving additional arguments never lets more products through: the
      narrower result is a subsequence of the wider one, so no longer. */
  lemma {:induction false} SearchMonotone(provider: seq<Product>, more: Criteria, less: Criteria)
    requires Extends(more, less)
    ensures Subsequence(Search(provider, more), Search(provider, less))
    ensures |Search(provider, more)| <= |Search(provider, less)|
    decreases |provider|
  {
    if provider == [] {
      SearchEmpty(more);
    } else {
      var x, t := provider[0], provider[1..];
      assert provider == [x] + t;
      SearchCons(x, t, more);
      SearchCons(x, t, less);
      SearchMonotone(t, more, less);
      if Satisfies(more, x) {
        ExtendsSatisfies(more, less, x);
      }
      SubsequenceGuarded(Search(t, more), Search(t, less), x, Satisfies(more, x), Satisfies(less, x));
    }
    SubsequenceLength(Search(provider, more), Search(provider, less));
  }

  /** Whether `a` may stand before `b` when sorting by `f`: ascending, or
      descending when `desc`. */
  predicate Precedes(f: Field, desc: bool, a: Product, b: Product)
  {
    if desc then FieldLe(f, b, a) else FieldLe(f, a, b)
  }

  /** Every pair of positions is in order: nondecreasing by the key, or
      nonincreasing when `desc`. */
  predicate SortedBy(s: seq<Product>, f: Field, desc: bool)
  {
    forall i, j :: 0 <= i < j < |s| ==> Precedes(f, desc, s[i], s[j])
  }

  /** The products of `s` whose key ties with `z`'s, in their order in `s`. */
  function Ties(s: seq<Product>, f: Field, z: Product): seq<Product>
    decreases |s|
  {
    if s == [] then []
    else (if SameKey(f, s[0], z) then [s[0]] else []) + Ties(s[1..], f, z)
  }

  /** `r` lists the products of every key in the same relative order as `s`
      does: what a stable sort guarantees. */
  ghost predicate Stable(r: seq<Product>, s: seq<Product>, f: Field)
  {
    forall z :: Ties(r, f, z) == Ties(s, f, z)
  }

  /** Inserts `x` in front of the first product it may precede. */
  function Insert(x: Product, s: seq<Product>, f: Field, desc: bool): seq<Product>
    decreases |s|
  {
    if s == [] then [x]
    else if Precedes(f, desc, x, s[0]) then [x] + s
    else [s[0]] + Insert(x, s[1..], f, desc)
  }

  /** A stable sort by `f`: each product is inserted into the sorted rest,
      ahead of the products it ties with, which all came after it. */
  function SortBy(s: seq<Product>, f: Field, desc: bool): seq<Product>
    decreases |s|
  {
    if s == [] then [] else Insert(s[0], SortBy(s[1..], f, desc), f, desc)
  }

  /** `order_dir.lower() == "desc"`. */
  predicate IsDesc(orderDir: string)
  {
    Lower(orderDir) == "desc"
  }

  /** `sort_products`: an unknown field leaves the list as it is; a known
      one sorts it stably by that field, descending when asked to. */
  function SortProducts(products: seq<Product>, orderBy: string, orderDir: string := "asc"): seq<Product>
  {
    var reverse := IsDesc(orderDir);
    match ParseField(orderBy)
    case None => products
    case Some(f) => SortBy(products, f, reverse)
  }

  lemma PrecedesTotal(f: Field, desc: bool, a: Product, b: Product)
    ensures Precedes(f, desc, a, b) || Precedes(f, desc, b, a)
  {
    FieldLeTotal(f, a, b);
  }

  lemma PrecedesTransitive(f: Field, desc: bool, a: Product, b: Product, c: Product)
    requires Precedes(f, desc, a, b) && Precedes(f, desc, b, c)
    ensures Precedes(f, desc, a, c)
  {
    if desc {
      FieldLeTransitive(f, c, b, a);
    } else {
      FieldLeTransitive(f, a, b, c);
    }
  }

  /** Products that tie on the key may stand in either order. */
  lemma TiePrecedes(f: Field, desc: bool, a: Product, b: Product)
    requires SameKey(f, a, b)
    ensures Precedes(f, desc, a, b) && Precedes(f, desc, b, a)
  {
    SameKeyIff(f, a, b);
  }

  /** Conversely, products each allowed before the other tie on the key. */
  lemma MutualPrecedesTie(f: Field, desc: bool, a: Product, b: Product)
    requires Precedes(f, desc, a, b) && Precedes(f, desc, b, a)
    ensures SameKey(f, a, b)
  {
    SameKeyIff(f, a, b);
  }

  lemma {:induction false} TiesMember(s: seq<Product>, f: Field, z: Product, y: Product)
    requires y in Ties(s, f, z)
    ensures y in s && SameKey(f, y, z)
    decreases |s|
  {
    if s != [] && !(y == s[0] && SameKey(f, s[0], z)) {
      TiesMember(s[1..], f, z, y);
    }
  }

  lemma {:induction false} InsertPermutation(x: Product, s: seq<Product>, f: Field, desc: bool)
    ensures multiset(Insert(x, s, f, desc)) == multiset{x} + multiset(s)
    decreases |s|
  {
    if s != [] && !Precedes(f, desc, x, s[0]) {
      var rest := Insert(x, s[1..], f, desc);
      InsertPermutation(x, s[1..], f, desc);
      assert Insert(x, s, f, desc) == [s[0]] + rest;
      assert multiset([s[0]] + rest) == multiset{s[0]} + multiset(rest);
      assert multiset(s) == multiset{s[0]} + multiset(s[1..]) by {
        assert s == [s[0]] + s[1..];
      }
    }
  }

  /** Dropping the head of a sorted list leaves it sorted. */
  lemma SortedTail(s: seq<Product>, f: Field, desc: bool)
    requires SortedBy(s, f, desc) && s != []
    ensures SortedBy(s[1..], f, desc)
  {
    forall i, j | 0 <= i < j < |s[1..]|
      ensures Precedes(f, desc, s[1..][i], s[1..][j])
    {
      assert s[1..][i] == s[i + 1] && s[1..][j] == s[j + 1];
    }
  }

  /** A product allowed before every product of a sorted list may head it. */
  lemma SortedCons(x: Product, s: seq<Product>, f: Field, desc: bool)
    requires SortedBy(s, f, desc)
    requires forall j :: 0 <= j < |s| ==> Precedes(f, desc, x, s[j])
    ensures SortedBy([x] + s, f, desc)
  {
    var r := [x] + s;
    forall i, j | 0 <= i < j < |r|
      ensures Precedes(f, desc, r[i], r[j])
    {
      assert r[j] == s[j - 1];
      if i > 0 {
        assert r[i] == s[i - 1];
      }
    }
  }

  lemma {:induction false} InsertSorted(x: Product, s: seq<Product>, f: Field, desc: bool)
    requires SortedBy(s, f, desc)
    ensures SortedBy(Insert(x, s, f, desc), f, desc)
    decreases |s|
  {
    if s == [] {
    } else if Precedes(f, desc, x, s[0]) {
      forall j | 0 <= j < |s|
        ensures Precedes(f, desc, x, s[j])
      {
        if j > 0 {
          PrecedesTransitive(f, desc, x, s[0], s[j]);
        }
      }
      SortedCons(x, s, f, desc);
    } else {
      var rest := Insert(x, s[1..], f, desc);
      SortedTail(s, f, desc);
      InsertSorted(x, s[1..], f, desc);
      InsertPermutation(x, s[1..], f, desc);
      PrecedesTotal(f, desc, x, s[0]);
      forall j | 0 <= j < |rest|
        ensures Precedes(f, desc, s[0], rest[j])
      {
        assert rest[j] in multiset(rest);
        if rest[j] != x {
          assert rest[j] in multiset(s[1..]);
          var k :| 0 <= k < |s[1..]| && s[1..][k] == rest[j];
          assert s[k + 1] == rest[j];
        }
      }
      SortedCons(s[0], rest, f, desc);
    }
  }

  /** The ties of a list with a given head. */
  lemma TiesCons(y: Product, s: seq<Product>, f: Field, z: Product)
    ensures Ties([y] + s, f, z) == (if SameKey(f, y, z) then [y] else []) + Ties(s, f, z)
  {
    assert ([y] + s)[0] == y && ([y] + s)[1..] == s;
  }

  /** `x` lands ahead of the products it ties with and keeps their order. */
  lemma {:induction false} InsertStable(x: Product, s: seq<Product>, f: Field, desc: bool, z: Product)
    ensures Ties(Insert(x, s, f, desc), f, z) == Ties([x] + s, f, z)
    decreases |s|
  {
    if s != [] && !Precedes(f, desc, x, s[0]) {
      var rest := Insert(x, s[1..], f, desc);
      assert Insert(x, s, f, desc) == [s[0]] + rest;
      InsertStable(x, s[1..], f, desc, z);
      var head := if SameKey(f, s[0], z) then [s[0]] else [];
      var mid := if SameKey(f, x, z) then [x] else [];
      TiesCons(s[0], rest, f, z);
      TiesCons(x, s[1..], f, z);
      TiesCons(x, s, f, z);
      TiesCons(s[0], s[1..], f, z);
      assert s == [s[0]] + s[1..];
      assert head == [] || mid == [] by {
        if SameKey(f, s[0], z) && SameKey(f, x, z) {
          TiePrecedes(f, desc, x, s[0]);
        }
      }
      assert head + (mid + Ties(s[1..], f, z)) == mid + (head + Ties(s[1..], f, z));
    }
  }

  lemma {:induction false} SortByPermutation(s: seq<Product>, f: Field, desc: bool)
    ensures multiset(SortBy(s, f, desc)) == multiset(s)
    decreases |s|
  {
    if s != [] {
      var rest := SortBy(s[1..], f, desc);
      SortByPermutation(s[1..], f, desc);
      InsertPermutation(s[0], rest, f, desc);
      assert SortBy(s, f, desc) == Insert(s[0], rest, f, desc);
      assert multiset(s) == multiset{s[0]} + multiset(s[1..]) by {
        assert s == [s[0]] + s[1..];
      }
    }
  }

  lemma {:induction false} SortBySorted(s: seq<Product>, f: Field, desc: bool)
    ensures SortedBy(SortBy(s, f, desc), f, desc)
    decreases |s|
  {
    if s != [] {
      SortBySorted(s[1..], f, desc);
      InsertSorted(s[0], SortBy(s[1..], f, desc), f, desc);
    }
  }

  lemma {:induction false} SortByStable(s: seq<Product>, f: Field, desc: bool)
    ensures Stable(SortBy(s, f, desc), s, f)
    decreases |s|
  {
    if s != [] {
      SortByStable(s[1..], f, desc);
      forall z
        ensures Ties(SortBy(s, f, desc), f, z) == Ties(s, f, z)
      {
        InsertStable(s[0], SortBy(s[1..], f, desc), f, desc, z);
        var sorted := SortBy(s[1..], f, desc);
        assert ([s[0]] + sorted)[1..] == sorted;
        assert ([s[0]] + s[1..]) == s;
      }
    }
  }

  /** The head of a list lists first among the products tying with it. */
  lemma TiesHead(s: seq<Product>, f: Field)
    requires s != []
    ensures Ties(s, f, s[0]) == [s[0]] + Ties(s[1..], f, s[0])
  {
  }

  /** Lists with the same ties for every key are both empty or both not. */
  lemma TiesNonEmpty(r: seq<Product>, t: seq<Product>, f: Field)
    requires forall z :: Ties(r, f, z) == Ties(t, f, z)
    ensures r == [] <==> t == []
  {
    if t != [] {
      TiesHead(t, f);
      assert Ties(r, f, t[0]) != [];
    }
    if r != [] {
      TiesHead(r, f);
      assert Ties(t, f, r[0]) != [];
    }
  }

  /** Two sorted lists with the same ties for every key start with the same
      product: each head ties with the other, and is the first of its key. */
  lemma SortedHeadsEqual(r: seq<Product>, t: seq<Product>, f: Field, desc: bool)
    requires SortedBy(r, f, desc) && SortedBy(t, f, desc) && r != [] && t != []
    requires forall z :: Ties(r, f, z) == Ties(t, f, z)
    ensures r[0] == t[0]
  {
    var a, b := r[0], t[0];
    TiesHead(r, f);
    TiesMember(t, f, a, a);
    TiesMember(r, f, b, b);
    var j :| 0 <= j < |t| && t[j] == a;
    var i :| 0 <= i < |r| && r[i] == b;
    TiePrecedes(f, desc, a, a);
    TiePrecedes(f, desc, b, b);
    assert Precedes(f, desc, b, a) && Precedes(f, desc, a, b);
    MutualPrecedesTie(f, desc, b, a);
    assert Ties(t, f, a) == [b] + Ties(t[1..], f, a);
    assert a == Ties(r, f, a)[0] == Ties(t, f, a)[0] == b;
  }

  /** Removing the same head from both lists keeps their ties equal. */
  lemma TiesTails(r: seq<Product>, t: seq<Product>, f: Field)
    requires r != [] && t != [] && r[0] == t[0]
    requires forall z :: Ties(r, f, z) == Ties(t, f, z)
    ensures forall z :: Ties(r[1..], f, z) == Ties(t[1..], f, z)
  {
    forall z
      ensures Ties(r[1..], f, z) == Ties(t[1..], f, z)
    {
      var head := if SameKey(f, r[0], z) then [r[0]] else [];
      assert Ties(r, f, z) == head + Ties(r[1..], f, z);
      assert Ties(t, f, z) == head + Ties(t[1..], f, z);
      assert Ties(r[1..], f, z) == Ties(r, f, z)[|head|..];
      assert Ties(t[1..], f, z) == Ties(t, f, z)[|head|..];
    }
  }

  /** A stable sort has only one possible result: two lists sorted by the
      same key that list every key's products in the same order are equal.
      So `SortBy` is what any stable sort, Python's `sorted` included,
      returns. */
  lemma {:induction false} StableSortUnique(r: seq<Product>, t: seq<Product>, f: Field, desc: bool)
    requires SortedBy(r, f, desc) && SortedBy(t, f, desc)
    requires forall z :: Ties(r, f, z) == Ties(t, f, z)
    ensures r == t
    decreases |r|
  {
    TiesNonEmpty(r, t, f);
    if r != [] {
      SortedHeadsEqual(r, t, f, desc);
      TiesTails(r, t, f);
      SortedTail(r, f, desc);
      SortedTail(t, f, desc);
      StableSortUnique(r[1..], t[1..], f, desc);
      assert r == [r[0]] + r[1..] && t == [t[0]] + t[1..];
    }
  }

  /** A field name outside the four valid ones leaves the list untouched,
      order included; the direction is then irrelevant. */
  lemma SortProductsUnknownField(products: seq<Product>, orderBy: string, orderDir: string)
    requires orderBy !in {"name", "price_per_unit", "quantity", "harvest_date"}
    ensures SortProducts(products, orderBy, orderDir) == products
  {
  }

  /** A valid field name gives a permutation of the input, ordered by that
      field (nonincreasing exactly when the direction lowers to "desc"),
      in which tied products keep their input order. */
  lemma SortProductsOrders(products: seq<Product>, orderBy: string, orderDir: string, f: Field)
    requires ParseField(orderBy) == Some(f)
    ensures multiset(SortProducts(products, orderBy, orderDir)) == multiset(products)
    ensures IsDesc(orderDir) ==> forall i, j :: 0 <= i < j < |SortProducts(products, orderBy, orderDir)| ==>
      FieldLe(f, SortProducts(products, orderBy, orderDir)[j], SortProducts(products, orderBy, orderDir)[i])
    ensures !IsDesc(orderDir) ==> forall i, j :: 0 <= i < j < |SortProducts(products, orderBy, orderDir)| ==>
      FieldLe(f, SortProducts(products, orderBy, orderDir)[i], SortProducts(products, orderBy, orderDir)[j])
    ensures Stable(SortProducts(products, orderBy, orderDir), products, f)
  {
    var desc := IsDesc(orderDir);
    SortByPermutation(products, f, desc);
    SortBySorted(products, f, desc);
    SortByStable(products, f, desc);
  }

  /** Any list that is ordered by the valid field in the requested direction
      and keeps tied products in input order is exactly what `sort_products`
      returns. */
  lemma SortProductsIsStableSort(products: seq<Product>, orderBy: string, orderDir: string, f: Field, r: seq<Product>)
    requires ParseField(orderBy) == Some(f)
    requires SortedBy(r, f, IsDesc(orderDir)) && Stable(r, products, f)
    ensures r == SortProducts(products, orderBy, orderDir)
  {
    var desc := IsDesc(orderDir);
    SortBySorted(products, f, desc);
    SortByStable(products, f, desc);
    StableSortUnique(r, SortBy(products, f, desc), f, desc);
  }
}
