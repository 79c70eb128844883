/** `SearchProductsUseCase`: filter the provider's products, then sort them
    when a sort field was requested. */
module SearchUseCases {
  import opened Optional
  import opened Sequences
  import opened Products
  import opened ProductSearchService

  /** Python's truthiness of `order_by`: `None` and `""` are false. */
  predicate OrderRequested(orderBy: Option<string>)
  {
    orderBy.Some? && orderBy.value != ""
  }

  /** `execute`: `search` with the seven filter arguments as received, then
      `sort_products` on its result only when `order_by` is truthy. */
  function Execute(provider: seq<Product>, c: Criteria, orderBy: Option<string> := None, orderDir: string := "asc"): seq<Product>
  {
    var filtered := Search(provider, c);
    if OrderRequested(orderBy) then SortProducts(filtered, orderBy.value, orderDir) else filtered
  }

  /** Without `order_by` (or with a blank one) the result is the filtered
      list in provider order. */
  lemma ExecuteUnordered(provider: seq<Product>, c: Criteria, orderBy: Option<string>, orderDir: string)
    requires !OrderRequested(orderBy)
    ensures Execute(provider, c, orderBy, orderDir) == Search(provider, c)
    ensures Subsequence(Execute(provider, c, orderBy, orderDir), provider)
  {
    SearchSubsequence(provider, c);
  }

  /** A non-blank `order_by` that names no sort field is ignored: the result
      is still the filtered list in provider order. */
  lemma ExecuteUnknownField(provider: seq<Product>, c: Criteria, orderBy: string, orderDir: string)
    requires orderBy != "" && ParseField(orderBy).None?
    ensures Execute(provider, c, Some(orderBy), orderDir) == Search(provider, c)
    ensures Subsequence(Execute(provider, c, Some(orderBy), orderDir), provider)
  {
    SearchSubsequence(provider, c);
  }

  /** With a valid `order_by` the result holds the filtered products, ordered
      by that field in the requested direction, ties in provider order. */
  lemma ExecuteOrdered(provider: seq<Product>, c: Criteria, orderBy: string, orderDir: string, f: Field)
    requires ParseField(orderBy) == Some(f)
    ensures multiset(Execute(provider, c, Some(orderBy), orderDir)) == multiset(Search(provider, c))
    ensures SortedBy(Execute(provider, c, Some(orderBy), orderDir), f, IsDesc(orderDir))
    ensures Stable(Execute(provider, c, Some(orderBy), orderDir), Search(provider, c), f)
  {
    var desc := IsDesc(orderDir);
    SortByPermutation(Search(provider, c), f, desc);
    SortBySorted(Search(provider, c), f, desc);
    SortByStable(Search(provider, c), f, desc);
  }

  /** `order_dir` defaults to "asc": a valid `order_by` alone sorts in
      nondecreasing order of the field. */
  lemma ExecuteDefaultAscending(provider: seq<Product>, c: Criteria, orderBy: string, f: Field)
    requires ParseField(orderBy) == Some(f)
    ensures forall i, j :: 0 <= i < j < |Execute(provider, c, Some(orderBy))| ==>
      FieldLe(f, Execute(provider, c, Some(orderBy))[i], Execute(provider, c, Some(orderBy))[j])
  {
    assert !IsDesc("asc");
    SortBySorted(Search(provider, c), f, false);
  }

  /** Whatever is asked, the result rearranges the products `search` keeps:
      each appears exactly as often as in the provider's list when it
      satisfies every given criterion, and not at all otherwise. */
  lemma ExecuteContents(provider: seq<Product>, c: Criteria, orderBy: Option<string>, orderDir: string, p: Product)
    ensures multiset(Execute(provider, c, orderBy, orderDir)) == multiset(Search(provider, c))
    ensures multiset(Execute(provider, c, orderBy, orderDir))[p] == if Satisfies(c, p) then multiset(provider)[p] else 0
    ensures p in Execute(provider, c, orderBy, orderDir) <==> p in provider && Satisfies(c, p)
    ensures multiset(Execute(provider, c, orderBy, orderDir)) <= multiset(provider)
  {
    SearchSubsequence(provider, c);
    SubsequenceMultiset(Search(provider, c), provider);
    var filtered := Search(provider, c);
    if OrderRequested(orderBy) {
      match ParseField(orderBy.value)
      case None =>
      case Some(f) => SortByPermutation(filtered, f, IsDesc(orderDir));
    }
    SearchMultiplicity(provider, c, p);
    SearchMembership(provider, c, p);
    assert p in Execute(provider, c, orderBy, orderDir) <==> p in multiset(Execute(provider, c, orderBy, orderDir));
    assert p in filtered <==> p in multiset(filtered);
  }
}
