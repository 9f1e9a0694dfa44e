/** The product grid's filtering: a category test on the lower-cased
    category name, a price-bucket test, their conjunction applied as an
    order-preserving filter, and the separate title search. */
module Catalog {
  import opened Base
  import opened Text

  datatype Category = Category(id: int, name: string)

  /** A product as the catalogue endpoint delivers it. Prices are exact
      rationals here. */
  datatype Product = Product(
    id: int,
    title: string,
    price: real,
    description: string,
    category: Category,
    images: seq<string>)

  /** The four category buttons. */
  const Home := "Home"
  const Electronics := "Electronics"
  const Fashion := "Fashion"
  const Others := "Others"

  /** The four options of the price drop-down. */
  const AllPrices := "All"
  const Low := "Low"
  const Mid := "Mid"
  const High := "High"

  /** Bucket boundaries, in rupees. */
  const MidFloor: real := 500.0
  const HighFloor: real := 1000.0

  /** The lower-cased category name mentions electronics. */
  ghost predicate NamesElectronics(lower: string)
  {
    Occurs(lower, "electronics")
  }

  /** The lower-cased category name mentions clothes, shoes or sandals. */
  ghost predicate NamesFashion(lower: string)
  {
    Occurs(lower, "clothes") || Occurs(lower, "shoes") || Occurs(lower, "sandals")
  }

  /** `matchesCategory` for the selected button and a product's category name. */
  function MatchesCategory(selected: string, categoryName: string): (b: bool)
    ensures selected == Home ==> b
    ensures selected == Electronics ==> (b <==> NamesElectronics(ToLower(categoryName)))
    ensures selected == Fashion ==> (b <==> NamesFashion(ToLower(categoryName)))
    ensures selected == Others ==>
              (b <==> !NamesElectronics(ToLower(categoryName)) && !NamesFashion(ToLower(categoryName)))
    ensures selected !in {Home, Electronics, Fashion, Others} ==> !b
  {
    var category := ToLower(categoryName);
    || selected == Home
    || (selected == Electronics && Includes(category, "electronics"))
    || (selected == Fashion
        && (Includes(category, "clothes") || Includes(category, "shoes") || Includes(category, "sandals")))
    || (selected == Others
        && !Includes(category, "electronics")
        && !Includes(category, "clothes")
        && !Includes(category, "shoes")
        && !Includes(category, "sandals"))
  }

  /** "Others" selects exactly the names that neither "Electronics" nor
      "Fashion" selects. */
  lemma OthersIsComplement(categoryName: string)
    ensures MatchesCategory(Others, categoryName)
            <==> !MatchesCategory(Electronics, categoryName) && !MatchesCategory(Fashion, categoryName)
  {
  }

  /** The category test ignores letter case: a name and its lower-cased form
      are accepted by the same buttons. */
  lemma CategoryIgnoresCase(selected: string, categoryName: string)
    ensures MatchesCategory(selected, categoryName) == MatchesCategory(selected, ToLower(categoryName))
  {
    ToLowerIdempotent(categoryName);
  }

  /** A capitalised category name such as "Electronics" or "Shoes" is
      recognised. */
  lemma CapitalisedNamesRecognised()
    ensures MatchesCategory(Electronics, "Electronics")
    ensures MatchesCategory(Fashion, "Shoes")
    ensures !MatchesCategory(Others, "Shoes")
  {
    assert ToLower("Electronics") == "electronics";
    assert OccursAt("electronics", "electronics", 0);
    assert ToLower("Shoes") == "shoes";
    assert OccursAt("shoes", "shoes", 0);
  }

  /** "Electronics" and "Fashion" overlap: one name can satisfy both. */
  lemma ElectronicsAndFashionOverlap()
    ensures MatchesCategory(Electronics, "electronics shoes")
    ensures MatchesCategory(Fashion, "electronics shoes")
  {
    var name := "electronics shoes";
    ToLowerOfLower(name);
    assert OccursAt(name, "electronics", 0);
    assert OccursAt(name, "shoes", 12);
  }

  /** `matchesPrice` for the selected price option and a product's price. */
  function MatchesPrice(range: string, price: real): (b: bool)
    ensures range == AllPrices ==> b
    ensures range == Low ==> (b <==> price < MidFloor)
    ensures range == Mid ==> (b <==> MidFloor <= price < HighFloor)
    ensures range == High ==> (b <==> price >= HighFloor)
    ensures range !in {AllPrices, Low, Mid, High} ==> !b
  {
    || range == AllPrices
    || (range == Low && price < MidFloor)
    || (range == Mid && price >= MidFloor && price < HighFloor)
    || (range == High && price >= HighFloor)
  }

  /** Low, Mid and High partition the prices: every price falls in exactly
      one bucket, and the boundaries belong to the upper bucket. */
  lemma PriceBucketsPartition(price: real)
    ensures MatchesPrice(Low, price) || MatchesPrice(Mid, price) || MatchesPrice(High, price)
    ensures !(MatchesPrice(Low, price) && MatchesPrice(Mid, price))
    ensures !(MatchesPrice(Mid, price) && MatchesPrice(High, price))
    ensures !(MatchesPrice(Low, price) && MatchesPrice(High, price))
    ensures MatchesPrice(Mid, 500.0) && !MatchesPrice(Low, 500.0)
    ensures MatchesPrice(High, 1000.0) && !MatchesPrice(Mid, 1000.0)
  {
  }

  /** A product is shown when both the category and the price test pass. */
  function Criterion(selected: string, range: string): Product -> bool
  {
    (p: Product) => MatchesCategory(selected, p.category.name) && MatchesPrice(range, p.price)
  }

  /** `filteredItems`: the products of `items` passing both tests. */
  function FilteredItems(items: seq<Product>, selected: string, range: string): (r: seq<Product>)
    ensures forall x :: x in r <==>
              x in items && MatchesCategory(selected, x.category.name) && MatchesPrice(range, x.price)
  {
    KeepMembers(items, Criterion(selected, range));
    Keep(items, Criterion(selected, range))
  }

  /** The filtered list is `items` restricted to exactly the positions whose
      product passes both tests, in their original order. */
  lemma FilterKeepsOrder(items: seq<Product>, selected: string, range: string) returns (idx: seq<int>)
    ensures SelectedAt(FilteredItems(items, selected, range), items, Criterion(selected, range), idx)
  {
    idx := KeepSelectsPositions(items, Criterion(selected, range));
  }

  /** The initial selection ("Home", "All") shows the whole catalogue. */
  lemma HomeAllShowsEverything(items: seq<Product>)
    ensures FilteredItems(items, Home, AllPrices) == items
  {
    KeepAll(items, Criterion(Home, AllPrices));
  }

  /** A category or price option outside the four listed values shows nothing. */
  lemma UnknownSelectionShowsNothing(items: seq<Product>, selected: string, range: string)
    requires selected !in {Home, Electronics, Fashion, Others} || range !in {AllPrices, Low, Mid, High}
    ensures FilteredItems(items, selected, range) == []
  {
    KeepNone(items, Criterion(selected, range));
  }

  /** The search test: the lower-cased title contains the lower-cased query. */
  function TitleMatches(query: string): Product -> bool
  {
    (p: Product) => Includes(ToLower(p.title), ToLower(query))
  }

  /** `handleSearch`: the products of the full `items` whose title contains
      the query, ignoring ASCII case. */
  function Search(items: seq<Product>, query: string): (r: seq<Product>)
    ensures forall x :: x in r <==> x in items && Occurs(ToLower(x.title), ToLower(query))
  {
    KeepMembers(items, TitleMatches(query));
    Keep(items, TitleMatches(query))
  }

  /** The search ignores the letter case of the query. */
  lemma SearchIgnoresQueryCase(items: seq<Product>, query: string)
    ensures Search(items, query) == Search(items, ToLower(query))
  {
    ToLowerIdempotent(query);
    assert TitleMatches(query) == TitleMatches(ToLower(query));
  }

  /** An empty query returns every product. */
  lemma EmptyQueryFindsAll(items: seq<Product>)
    ensures Search(items, "") == items
  {
    forall i | 0 <= i < |items|
      ensures TitleMatches("")(items[i])
    {
      IncludesEmpty(ToLower(items[i].title));
    }
    KeepAll(items, TitleMatches(""));
  }

  /** Search and the category/price filter are independent: applying them in
      either order yields the same list. */
  lemma SearchCommutesWithFilter(items: seq<Product>, selected: string, range: string, query: string)
    ensures Search(FilteredItems(items, selected, range), query)
            == FilteredItems(Search(items, query), selected, range)
  {
    KeepTwice(items, Criterion(selected, range), TitleMatches(query));
  }
}
