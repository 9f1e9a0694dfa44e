# Shopping website: catalogue filter, cart, accounts and product loading

A Dafny model of the decision logic inside a small React/Redux shop. The shop
lists products fetched from a catalogue endpoint, narrows them by category
button and price drop-down, keeps a cart with a running total, and guards the
pages behind a sign-up/login pair that keeps its accounts in the browser's
`localStorage`.

The model lifts each piece of logic into pure functions over immutable data:

- `Catalog`: the category test (case-insensitive substring rules over the
  category name), the half-open price buckets, their conjunction applied as an
  order-preserving filter, and the separate title search.
- `ProductsSlice`: the `products` slice reducer over `{items, loading, error}`
  for the pending, fulfilled and rejected actions of `fetchProducts`; the
  initial state is `Initial` (no items, not loading, no error).
- `ProductGrid`: spinner, cards or "No products found." for a slice state and
  selection.
- `Cart`: `calculateTotal` as a left fold of price × quantity, the guarded
  `clearAll`, and the empty-cart notice versus the item list with its total.
- `Email`: the pattern `^[^\s@]+@[^\s@]+\.[^\s@]+$` written out by hand, once
  as the three-run shape the regular expression describes and once as an
  equivalent hand-written check, which the models of both forms use, with a
  proof that the two agree.
- `SignUp`: the ordered field checks of `validateForm`, the duplicate e-mail
  check and the append to the stored user list.
- `Login`: the ordered checks of `handleLogin`, the lookup of the first user
  matching e-mail and password, the two session keys written on success,
  `handleLogout` and the `isLoggedIn === "true"` guard.
- `Storage`: `localStorage` as a `map<string, Value>`; `Text`: ASCII
  `toLowerCase` and `includes`; `Base`: `filter` and `findIndex` over
  sequences; `Alerts`: the banner both forms raise.

`Catalog.Search` runs over the full product list (ProductList.jsx:32-35), not
over the category/price result.

## Model

| member | source | states |
|---|---|---|
| `Text.ToLower` | ProductList.jsx:105 | the result has the same length, contains no ASCII capital, turns each capital A-Z into the matching small letter and keeps every other character |
| `Text.Includes` | ProductList.jsx:109-116 | `includes` is true exactly when the query occurs as a contiguous substring at some position; the empty query occurs in every string |
| `Email.IsValidIffMatches` | SignUp.jsx:31-32 | the hand-written check accepts exactly the strings that split into a non-empty run, '@', a non-empty run, '.', a non-empty run, each run free of whitespace and '@' |
| `Email.AcceptedShape` | SignUp.jsx:31 | an accepted address has exactly one '@', which is not its first character, no whitespace, and a '.' after the '@' that is neither the first nor the last character of the domain |
| `Email.ShortestAccepted` | SignUp.jsx:31 | one character in each run suffices: "a@b.c" is accepted |
| `Email.DotRightAfterAtRejected` | SignUp.jsx:31 | the '.' right after the '@' cannot be the separating dot, since the host run before it would be empty: "a@.c" is rejected (though "a@.b.c" is accepted, the host run being ".b") |
| `Email.TrailingDotRejected` | SignUp.jsx:31 | a final '.' cannot be the separating dot, since the last run after it would be empty: "a@b." is rejected (though "a@b.c." is accepted, the last run being "c.") |
| `Catalog.MatchesCategory` | ProductList.jsx:105-116 | "Home" accepts every name; "Electronics" accepts iff the lower-cased name contains "electronics"; "Fashion" iff it contains "clothes", "shoes" or "sandals"; "Others" iff it contains none of the four; any other selection accepts nothing |
| `Catalog.OthersIsComplement` | ProductList.jsx:109-116 | "Others" accepts exactly the names that neither "Electronics" nor "Fashion" accepts |
| `Catalog.CategoryIgnoresCase` | ProductList.jsx:105-116 | every button accepts a category name exactly when it accepts the name's lower-cased form |
| `Catalog.CapitalisedNamesRecognised` | ProductList.jsx:105-116 | capitalised names are recognised: "Electronics" passes "Electronics", "Shoes" passes "Fashion" and fails "Others" |
| `Catalog.ElectronicsAndFashionOverlap` | ProductList.jsx:109-111 | "Electronics" and "Fashion" are not disjoint: one name satisfies both |
| `Catalog.MatchesPrice` | ProductList.jsx:119-123 | "All" accepts every price; "Low" accepts exactly prices below 500, "Mid" those from 500 up to but excluding 1000, "High" those from 1000 up; an option outside All/Low/Mid/High accepts none |
| `Catalog.PriceBucketsPartition` | ProductList.jsx:119-123 | every price is in exactly one of Low, Mid, High; 500 is Mid and not Low; 1000 is High and not Mid |
| `Catalog.FilteredItems` | ProductList.jsx:104-126 | a product is in the filtered list iff it is in the catalogue and passes both the category and the price test |
| `Catalog.FilterKeepsOrder` | ProductList.jsx:104-126 | the filtered list is the catalogue restricted to exactly the positions whose product passes both tests, in increasing position order |
| `Catalog.HomeAllShowsEverything` | ProductList.jsx:107-120 | with "Home" and "All" the filtered list equals the catalogue |
| `Catalog.UnknownSelectionShowsNothing` | ProductList.jsx:107-123 | a category or price option outside the four listed values empties the list |
| `Catalog.Search` | ProductList.jsx:32-35 | a product is in the search result iff it is in the full catalogue and its lower-cased title contains the lower-cased query |
| `Catalog.SearchIgnoresQueryCase` | ProductList.jsx:32-35 | a query and its lower-cased form find the same products |
| `Catalog.EmptyQueryFindsAll` | ProductList.jsx:33-34 | the empty query returns the whole catalogue, in order |
| `Catalog.SearchCommutesWithFilter` | ProductList.jsx:33-35 | searching the filtered list gives the same list as filtering the search result |
| `ProductsSlice.Reduce` | productsSlice.jsx:19-32 | pending sets loading and keeps items and error; fulfilled clears loading and replaces items, keeping the error; rejected clears loading and sets the error, keeping items; any other action changes nothing |
| `ProductsSlice.ItemsFollowLastFulfilled` | productsSlice.jsx:25-28 | after any sequence of actions the items are the payload of the last fulfilled action, or the starting items if there was none |
| `ProductsSlice.ErrorFollowsLastRejected` | productsSlice.jsx:29-32 | after any sequence of actions the error is the message of the last rejected action, or the starting error if there was none |
| `ProductsSlice.LoadingFollowsLastThunk` | productsSlice.jsx:22-32 | after any sequence of actions the slice is loading iff the last of the three thunk actions was pending, or no thunk action came and it was loading before |
| `ProductsSlice.StaleErrorSurvivesRetry` | productsSlice.jsx:25-32 | pending, rejected, pending, fulfilled leaves the new products beside the old error message |
| `ProductGrid.RenderGrid` | ProductList.jsx:128-295 | the spinner shows iff the slice is loading; otherwise the cards are the filtered products in catalogue order (the list `FilterKeepsOrder` describes), and "No products found." shows only when no product passes both tests |
| `ProductGrid.FailedFetchShowsNoProducts` | ProductList.jsx:291-295 | after a failed first fetch the page shows "No products found." for every selection |
| `ProductGrid.LoadedCatalogueShownInFull` | ProductList.jsx:16-17 | once a non-empty payload arrives, the initial selection shows all of it |
| `Cart.FoldIsSum` | Cart.jsx:15-16 | the left fold from any accumulator adds the sum of the line totals to it |
| `Cart.CalculateTotal` | Cart.jsx:15-16 | the total is the sum of price × quantity over the lines; an empty cart totals 0 |
| `Cart.TotalAppend` | Cart.jsx:16 | appending a line raises the total by exactly its price × quantity |
| `Cart.TotalIgnoresOrder` | Cart.jsx:16 | two carts holding the same lines in any order have the same total |
| `Cart.TotalNonNegative` | Cart.jsx:16 | with non-negative prices and quantities the total is non-negative |
| `Cart.ClearAll` | Cart.jsx:18-30 | an empty cart yields "nothing to clear", dispatches nothing and leaves the store and banner alone; otherwise it dispatches `clearCart` once, removes only the `cartItems` key and shows the success banner |
| `Cart.Render` | Cart.jsx:58-117 | the empty-cart notice shows iff the cart is empty; otherwise the lines are shown with their sum as the total |
| `SignUp.ValidateForm` | SignUp.jsx:25-42 | valid iff name present, e-mail present and matching the pattern, password at least 8 long and equal to its confirmation; otherwise the message is that of the first failing check in that order |
| `SignUp.PasswordLengthBoundary` | SignUp.jsx:35-36 | with the other fields valid, an 8-character password passes and a 7-character one fails the length check |
| `SignUp.HandleSignup` | SignUp.jsx:44-59 | an invalid form or an already registered e-mail (exact equality) leaves the store unchanged with a danger banner; otherwise the user list gains exactly the new record at its end and no other key changes |
| `SignUp.SignupKeepsEmailsUnique` | SignUp.jsx:50-57 | if no two stored users shared an e-mail before a sign-up, none do after it |
| `Storage.StoredUsers` | SignUp.jsx:49 | the stored user list is the list kept under `users`, or empty when that key is absent |
| `Login.SessionActive` | App.jsx:10 | the guard passes iff `isLoggedIn` holds exactly the text "true"; a missing key or any other value fails it |
| `Login.SessionReadsOnlyFlag` | ProductList.jsx:41-42 | two stores that agree on `isLoggedIn` get the same answer from the guard, whatever else they hold |
| `Login.HandleLogin` | Login.jsx:34-70 | a missing field, a malformed e-mail, then a short password are rejected in that order before any lookup; login succeeds iff some stored user matches both fields, and then `isLoggedIn` is "true" and `currentUser` is the first match; every failure leaves the store unchanged |
| `Login.LoginOpensSession` | Login.jsx:60-62 | a successful login makes the session guard pass; a failed one leaves the guard's answer as it was |
| `Login.HandleLogout` | ProductList.jsx:25-27 | logout removes `isLoggedIn` and `currentUser` and keeps every other key |
| `Login.LogoutClosesSession` | ProductList.jsx:40-45 | after logout the session guard fails |
| `Login.LogoutUndoesLogin` | Login.jsx:54-62 | logging out after a login attempt leaves the same store as logging out without it |
| `Login.SignUpThenLogIn` | Login.jsx:54-62 | after a successful sign-up, logging in with the same e-mail and password succeeds and the session belongs to the new account |

## Left out

- The HTTP request of `fetchProducts` (productsSlice.jsx:7-10): only its outcome is modelled, as the payload of a fulfilled action or the message of a rejected one.
- Browser effects: `window.location` redirects, `navigate` calls, `alert()`, the toast and banner timers, the fly-to-cart animation and the product modal. The "No items to clear!" alert is the `NothingToClear` outcome.
- JSON encoding in `localStorage`: values are kept in structured form. A `users` entry that is not a user list is read as the empty list, where the code would throw on malformed JSON.
- The cart reducer (`addToCart`, `increaseQty`, `decreaseQty`, `removeFromCart`, `clearCart`) is not part of this model: `clearCart` is recorded as a dispatched action only, so "the cart is empty after Clear All" is not stated.
- Floating point: prices are exact rationals, so the total is exact; the `toFixed(2)` display rounding and the random star rating are not modelled.
- Search wiring: the component binds the state value instead of its setter and the submit handler names an undefined variable, so the search result is never displayed. Only the search predicate and filter are modelled.
- The `validateForm` of the login page (Login.jsx:19-32) is never called and is not modelled.
- `toLowerCase` is restricted to ASCII letters; other characters are left as they are.
- String length counts Unicode scalar values, whereas JavaScript counts UTF-16 code units, so a password with characters outside the Basic Multilingual Plane is counted shorter here.
- Router configuration, the 500 ms storage polling and `ProtectedRoute` (App.jsx): only the guard's test is modelled, as `Login.SessionActive`.
- Catalogue entries of unexpected shape (a missing category, a non-numeric price) would throw or compare oddly in the code; products here are well-typed.
