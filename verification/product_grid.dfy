/** What the product page shows for a given slice state and selection: the
    spinner while loading, otherwise the filtered cards or the "No products
    found." notice. */
module ProductGrid {
  import opened Base
  import opened Catalog
  import opened ProductsSlice

  datatype GridView =
    | Spinner
    | NoProducts
    | Cards(products: seq<Product>)

  function RenderGrid(state: State, selected: string, range: string): (v: GridView)
    ensures v.Spinner? <==> state.loading
    ensures !state.loading && v.NoProducts? ==>
              forall x :: x in state.items ==> !(MatchesCategory(selected, x.category.name) && MatchesPrice(range, x.price))
    ensures v.Cards? ==> |v.products| > 0 && v.products == FilteredItems(state.items, selected, range)
  {
    if state.loading then Spinner
    else
      var shown := FilteredItems(state.items, selected, range);
      if |shown| == 0 then NoProducts else Cards(shown)
  }

  /** When the fetch fails the page does not break: it filters an empty
      catalogue and shows the "No products found." notice. */
  lemma FailedFetchShowsNoProducts(message: string, selected: string, range: string)
    ensures RenderGrid(ReduceAll(Initial, [Action(PendingType, [], ""), Action(RejectedType, [], message)]),
                       selected, range) == NoProducts
  {
    var actions := [Action(PendingType, [], ""), Action(RejectedType, [], message)];
    assert actions[..1][..0] == [];
    assert ReduceAll(Initial, actions[..1]) == State([], true, None);
  }

  /** Once products have arrived, the initial selection shows all of them. */
  lemma LoadedCatalogueShownInFull(s: State, products: seq<Product>)
    requires |products| > 0
    ensures RenderGrid(Reduce(s, Action(FulfilledType, products, "")), Home, AllPrices) == Cards(products)
  {
    HomeAllShowsEverything(products);
  }
}
