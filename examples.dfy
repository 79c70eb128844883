/** Worked examples of the search and the sort on small catalogs. */
module SearchExamples {
  import opened Optional
  import opened Products
  import opened ProductSearchService

  function Item(id: int, name: string, price: int, quantity: int): Product
  {
    Product(id, name, "grain", "farm-1", quantity, price, None, 0, None)
  }

  const NoFilter := Criteria(None, None, None, None, None, None, None)

  /** "corn" matches both "Corn" and "Corn Sweet"; a minimum price of 15
      keeps only the second. */
  lemma CornExample()
    ensures Search([Item(1, "Corn", 10, 5), Item(2, "Corn Sweet", 20, 3)], NoFilter.(name := Some("corn")))
         == [Item(1, "Corn", 10, 5), Item(2, "Corn Sweet", 20, 3)]
    ensures Search([Item(1, "Corn", 10, 5), Item(2, "Corn Sweet", 20, 3)], NoFilter.(minPrice := Some(15)))
         == [Item(2, "Corn Sweet", 20, 3)]
  {
    var corn, sweet := Item(1, "Corn", 10, 5), Item(2, "Corn Sweet", 20, 3);
    assert Text.Lower("corn") == "corn";
    assert Text.Lower(corn.name) == "corn";
    assert Text.Lower(sweet.name)[..4] == "corn";
    SearchCons(corn, [sweet], NoFilter.(name := Some("corn")));
    SearchCons(sweet, [], NoFilter.(name := Some("corn")));
    SearchCons(corn, [sweet], NoFilter.(minPrice := Some(15)));
    SearchCons(sweet, [], NoFilter.(minPrice := Some(15)));
    SearchEmpty(NoFilter.(name := Some("corn")));
    SearchEmpty(NoFilter.(minPrice := Some(15)));
  }

  /** Prices 30, 10, 20 sort to 10, 20, 30 and, descending, to 30, 20, 10. */
  lemma PriceSortExample()
    ensures SortProducts([Item(1, "a", 30, 1), Item(2, "b", 10, 1), Item(3, "c", 20, 1)], "price_per_unit")
         == [Item(2, "b", 10, 1), Item(3, "c", 20, 1), Item(1, "a", 30, 1)]
    ensures SortProducts([Item(1, "a", 30, 1), Item(2, "b", 10, 1), Item(3, "c", 20, 1)], "price_per_unit", "DESC")
         == [Item(1, "a", 30, 1), Item(3, "c", 20, 1), Item(2, "b", 10, 1)]
  {
  }
}
