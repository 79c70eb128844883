# Product search: filter-and-sort pipeline

A Dafny model of the product search service. The service takes the full
product catalog from an upstream provider and narrows it with up to seven
optional criteria:

- a case-insensitive name substring;
- inclusive minimum and maximum price per unit;
- inclusive minimum and maximum quantity;
- inclusive start and end of the harvest date.

It can then sort the result by one of four fields, ascending or descending.
The use case `SearchProductsUseCase.execute` always filters first. It sorts
only when a sort field was requested.

Files:

- `optional.dfy`: `Option`, Python's `Optional[...]`.
- `text.dfy`: `str.lower()` (ASCII letters only), the `in` substring test,
  and Python's lexicographic string order, with its order laws.
- `sequences.dfy`: `Subsequence`, the relation a list comprehension with an
  `if` keeps to its input.
- `product.dfy`: the `Product` record, with the fields the provider fills in
  (`API/adapters/product_provider_api.py:27-37`), and the four sort fields
  with their key order (`getattr(p, order_by)` and Python's `<=`).
- `product_search_service.dfy`: `search` (`Search`) and `sort_products`
  (`SortProducts`), with their properties.
- `search_use_cases.dfy`: `execute` (`Execute`), with its properties.
- `examples.dfy`: two worked examples (the "Corn" filter and a price sort).

Modelling choices:

- Every operation is a pure function over `seq<Product>`, as in the source.
  The search rebinds one local list per pass, and the sort returns a new list.
- The provider call `self.product_provider.get_all_products()` becomes the
  `provider` parameter. The seven filter arguments are bundled in
  `Criteria`, with `None` meaning "not given".
- Each filter pass is `Keep`, the list comprehension, behind `Narrow`,
  which skips the pass when its argument is absent. `Passes(c)` lists the
  seven passes in the source's order. `Search` runs them one after another
  with `NarrowAll`, each on the previous result. A name counts as given
  only when it is non-empty, matching `if name:`.
- `Satisfies` is an independent statement of "passes every given
  criterion". The lemmas show that `Search` is exactly the one-pass filter by
  `Satisfies`:
  - `SearchCons` handles one product;
  - `SearchMembership` and `SearchMultiplicity` then give soundness,
    completeness and "no duplicates";
  - `SearchSubsequence` shows the provider's order is kept.
- Python's `sorted(..., key=..., reverse=...)` is a stable sort, and
  `reverse=True` keeps tied elements in input order. `SortBy` is a stable
  insertion sort. `Stable` says every key's products appear in the same
  order as in the input.
- `StableSortUnique` proves that a stable sort has only one possible
  result. So `SortBy` returns what any stable sort returns, Python's
  Timsort included.
- Prices, quantities and date-times are `int`. The search only compares
  them with `<=` and `>=`.

Two points about the code itself:

- The code has no product-type filter, so the model has none.
- A non-empty but unknown `order_by` is silently ignored
  (`API/domain/services/product_search_service.py:60-61`).

## Model

| member | source | states |
|---|---|---|
| `Text.Lower` | API/domain/services/product_search_service.py:30 | lower-casing keeps the length, turns every upper-case ASCII letter into its lower-case letter and keeps every other character |
| `Text.ContainsIff` | API/domain/services/product_search_service.py:30 | the `in` test succeeds exactly when the needle occurs at some position of the name |
| `Text.EmptyContained` | API/domain/services/product_search_service.py:29-30 | an empty needle is contained in every name, so a blank name filter would keep everything anyway |
| `ProductSearchService.BlankNameKeepsAll` | API/domain/services/product_search_service.py:29-30 | a name pass with a blank needle would keep every product, so skipping it when `if name:` is false for `""` changes nothing |
| `Text.LexLeReflexive` | API/domain/services/product_search_service.py:63 | every name sorts at most itself |
| `Text.LexLeTotal` | API/domain/services/product_search_service.py:63 | any two names are comparable |
| `Text.LexLeAntisymmetric` | API/domain/services/product_search_service.py:63 | two names each at most the other are equal |
| `Text.LexLeTransitive` | API/domain/services/product_search_service.py:63 | the string order is transitive |
| `Products.ParseField` | API/domain/services/product_search_service.py:58-61 | a field is recognised exactly when the name is one of the four valid ones, and it is the field of that name |
| `Products.ParseFieldName` | API/domain/services/product_search_service.py:58 | each of the four fields is recognised under its own name |
| `Products.FieldLeTotal` | API/domain/services/product_search_service.py:63 | any two products are comparable on any sort key |
| `Products.FieldLeTransitive` | API/domain/services/product_search_service.py:63 | the key order is transitive |
| `Products.SameKeyIff` | API/domain/services/product_search_service.py:63 | two products have equal keys exactly when each key is at most the other |
| `ProductSearchService.NarrowGuarded` | API/domain/services/product_search_service.py:32-33 | one pass keeps a leading product exactly when the product passes, and runs on the rest independently |
| `ProductSearchService.NarrowAllGuarded` | API/domain/services/product_search_service.py:29-48 | running the passes in sequence keeps a leading product exactly when every pass keeps it, and runs on the rest independently |
| `ProductSearchService.NarrowAllAbsent` | API/domain/services/product_search_service.py:29-48 | passes whose arguments are all absent leave the list unchanged |
| `ProductSearchService.SatisfiesAllPasses` | API/domain/services/product_search_service.py:29-48 | a product passes all seven passes exactly when it satisfies every given criterion |
| `ProductSearchService.SearchEmpty` | API/domain/services/product_search_service.py:27-50 | an empty provider list gives an empty result |
| `ProductSearchService.ExtendsSatisfies` | API/domain/services/product_search_service.py:29-48 | a product that satisfies a set of arguments also satisfies any subset of them |
| `ProductSearchService.SearchCons` | API/domain/services/product_search_service.py:27-50 | the provider's first product survives all seven passes exactly when it satisfies every given criterion; the rest is searched independently |
| `ProductSearchService.SearchMembership` | API/domain/services/product_search_service.py:29-50 | soundness and completeness: a product is in the result if and only if the provider listed it and it satisfies every given criterion (inclusive bounds, case-insensitive name) |
| `ProductSearchService.SearchMultiplicity` | API/domain/services/product_search_service.py:29-50 | each product occurs as often as in the provider's list if it satisfies the criteria, otherwise not at all |
| `ProductSearchService.SearchSubsequence` | API/domain/services/product_search_service.py:29-48 | the result is the provider's list with products deleted: order kept, nothing added or repeated |
| `ProductSearchService.SearchNoCriteria` | API/domain/services/product_search_service.py:27-50 | with every argument absent (a blank name counting as absent) the result is the provider's list itself |
| `ProductSearchService.SearchMonotone` | API/domain/services/product_search_service.py:29-48 | giving further arguments yields a subsequence of the earlier result, never a longer list |
| `ProductSearchService.PrecedesTotal` | API/domain/services/product_search_service.py:57-63 | in either direction, any two products can be ordered |
| `ProductSearchService.PrecedesTransitive` | API/domain/services/product_search_service.py:57-63 | in either direction, the order is transitive |
| `ProductSearchService.TiePrecedes` | API/domain/services/product_search_service.py:63 | products with equal keys may stand in either order |
| `ProductSearchService.MutualPrecedesTie` | API/domain/services/product_search_service.py:63 | products each allowed before the other have equal keys |
| `ProductSearchService.TiesMember` | API/domain/services/product_search_service.py:63 | the tie list of a key holds only products of the list with that key |
| `ProductSearchService.InsertPermutation` | API/domain/services/product_search_service.py:63 | insertion adds exactly the one product |
| `ProductSearchService.SortedCons` | API/domain/services/product_search_service.py:63 | a product allowed before every element of a sorted list can head it |
| `ProductSearchService.InsertSorted` | API/domain/services/product_search_service.py:63 | inserting into a sorted list keeps it sorted |
| `ProductSearchService.InsertStable` | API/domain/services/product_search_service.py:63 | the inserted product goes before the products it ties with, and their order is kept |
| `ProductSearchService.SortByPermutation` | API/domain/services/product_search_service.py:63 | the sort returns a permutation of its input |
| `ProductSearchService.SortBySorted` | API/domain/services/product_search_service.py:63 | the sort's output is ordered by the key, nonincreasing when descending |
| `ProductSearchService.SortByStable` | API/domain/services/product_search_service.py:63 | products with equal keys keep their input order, in both directions |
| `ProductSearchService.StableSortUnique` | API/domain/services/product_search_service.py:63 | two lists that are both sorted by a key and keep every key's products in the same order are equal, so a stable sort's result is unique |
| `ProductSearchService.SortProductsUnknownField` | API/domain/services/product_search_service.py:58-61 | a field name outside the four valid ones returns the input unchanged, whatever the direction |
| `ProductSearchService.SortProductsOrders` | API/domain/services/product_search_service.py:57-63 | a valid field gives a permutation of the input that is nondecreasing by that field, or nonincreasing when the direction lowers to "desc", with tied products in input order |
| `ProductSearchService.SortProductsIsStableSort` | API/domain/services/product_search_service.py:63 | any list that is sorted that way and keeps ties in input order is exactly the result of `sort_products` |
| `SearchUseCases.ExecuteUnordered` | API/use_cases/search_use_cases.py:27-45 | with `order_by` absent or empty, the result is the search result for the same seven arguments, in provider order |
| `SearchUseCases.ExecuteUnknownField` | API/use_cases/search_use_cases.py:38-45 | a non-empty but unknown `order_by` still yields the filtered list in provider order |
| `SearchUseCases.ExecuteOrdered` | API/use_cases/search_use_cases.py:38-43 | a valid `order_by` yields the filtered products, ordered by that field in the requested direction, with ties in provider order |
| `SearchUseCases.ExecuteDefaultAscending` | API/use_cases/search_use_cases.py:21 | when `order_dir` is omitted it is "asc", so a valid `order_by` gives nondecreasing order |
| `SearchUseCases.ExecuteContents` | API/use_cases/search_use_cases.py:27-45 | the result is always a rearrangement of the search result. It holds exactly the provider's products that satisfy every given criterion, each as often as the provider lists it, so its multiset is at most the provider's |
| `SearchExamples.CornExample` | API/domain/services/product_search_service.py:29-33 | "corn" matches both "Corn" and "Corn Sweet"; a minimum price of 15 keeps only the second |
| `SearchExamples.PriceSortExample` | API/domain/services/product_search_service.py:57-63 | prices 30, 10, 20 sort to 10, 20, 30, and with direction "DESC" to 30, 20, 10 |

## Left out

- The provider (`API/adapters/product_provider_api.py`) is left out: the HTTP GET, the non-200 error and the `datetime.fromisoformat` parsing. Its product list is the `provider` parameter.
- The port (`API/ports/product_provider_port.py`) is an abstract interface with no logic, so it is left out.
- The Flask route (`API/adapters/routes/product_search_api.py`) is left out: query-string extraction, `float()`/`int()`/date parsing, `jsonify` and the 500 error envelope.
- Logging middleware, application factory and `main.py` are left out. They are bootstrap and plumbing.
- `API/domain/models/product.py` is not part of this model. `Product` carries the fields the provider sets.
- The service and use-case objects are left out. Each holds one collaborator set once in `__init__`, and that collaborator is passed as an argument here.
- Floating-point prices are `int` here. NaN and mixing of int and float are not modelled.
- Time-zone-aware and naive date-times are not modelled. In Python, comparing the two raises `TypeError`; here harvest dates are plain `int`s.
- Missing fields are not modelled. In Python, a product whose `name` or sort key is `None` raises when lowered or compared; here every field is present.
- Text.Lower: lowers ASCII letters only, not the full Unicode `str.lower()`. The name filter can therefore differ from the source on non-ASCII letters. The "desc" direction test is unaffected, because only `D`, `E`, `S` and `C` lower to those letters.
