# Gundam store: cart, inventory and grade badge

A Dafny model of the logic of a small storefront for model kits. The storefront has a product catalogue with a grade filter, a shopping cart, and an admin panel for the inventory. The hosted data service's `products` and `cart` tables are kept in memory as maps from row id to row, inside the class `Backend.Database`. The requests that change the tables, and the add-to-cart lookup, are methods of that class. The other selects are not: the product lists are plain parameters, and the cart page's joined select is the `cartItems` parameter of `CartPage.Checkout`; `CartPage.IsCartView` states when that parameter is the current view of the user's cart. A boolean parameter `ok` stands for the service's answer to each request. A failed request changes nothing, and the page reports `Err(ServiceError)`. Prices are whole cents.

Modules follow the source files:

- `Backend` (backend.dfy): the row types, the tables, and one method per modelled request.
- `IndexPage` (index_page.dfy): the grade filter, and add-to-cart. Add-to-cart looks up the user's row for the product, then either raises its quantity by one or inserts a row with quantity 1.
- `CartPage` (cart_page.dfy): the order total, removing one row, and checkout. Checkout deletes the user's cart rows first. Only if that succeeds does it delete every product those rows referenced.
- `AdminDashboard` (admin_dashboard.dfy): the product form and its required-field check. Also the conversions between a product and the form, save (update or insert), delete, and form reset.
- `GradeBadge` (grade_badge.dfy): the badge's CSS class and its label "CODE - Name".

Two behaviours of the code are modelled as written:

- The add-to-cart lookup uses `maybeSingle`, so it finds a row only when exactly one row matches.
- The lookup's error is never read. So when the lookup fails, the code inserts a row even though the user already has one. `IndexPage.FailedLookupDuplicates` shows that this breaks the one-row-per-(user, product) invariant. `IndexPage.AddKeepsUnique` shows that a successful lookup keeps it.

Three behaviours of the code that a reader might not expect; the model follows the code:

- Checkout takes its product ids from the cart items the page has already loaded. It does not re-read the cart.
- Errors from the service are passed on as they come. They are not wrapped in an error of the page's own.
- An empty grade selection is falsy, so it shows every product, the same as no selection.

## Model

| member | source | states |
|---|---|---|
| `GradeBadge.ToUpper` | src/components/GradeBadge.tsx:6 | same length; each letter upper-cased, other characters kept; no lower-case letter remains |
| `GradeBadge.ToLower` | src/components/GradeBadge.tsx:7 | same length; each letter lower-cased, other characters kept; no upper-case letter remains |
| `GradeBadge.UpperOfLower` | src/components/GradeBadge.tsx:6-7 | upper-casing after lower-casing equals upper-casing the original |
| `GradeBadge.UpperIdempotent` | src/components/GradeBadge.tsx:6 | upper-casing twice is upper-casing once |
| `GradeBadge.GradeClass` | src/components/GradeBadge.tsx:7 | the class is "grade-" followed by the grade with no upper-case letter, equal to the grade up to case |
| `GradeBadge.GradeName` | src/components/GradeBadge.tsx:9-19 | a code in the table (HG, MG, SD, PG, RG) gets the table's name; the name equals the code exactly when the table does not know the code |
| `GradeBadge.GradeLabel` | src/components/GradeBadge.tsx:19 | the label is the upper-cased grade, then " - ", then the name of the upper-cased grade |
| `GradeBadge.KnownGradeLabel` | src/components/GradeBadge.tsx:9-19 | each of the five codes, upper- or lower-case, is labelled with the code, " - " and its name from the table |
| `GradeBadge.UnknownLabel` | src/components/GradeBadge.tsx:19 | a grade missing from the table falls back to "CODE - CODE" with the upper-cased grade |
| `GradeBadge.NamesEndLower` | src/components/GradeBadge.tsx:9-15 | every table code is two upper-case letters and every name ends in a lower-case letter |
| `GradeBadge.KnownNotUnknown` | src/components/GradeBadge.tsx:9-19 | a grade in the table and a grade outside it never get the same label |
| `GradeBadge.LabelDeterminesCode` | src/components/GradeBadge.tsx:6-19 | two grades get the same label if and only if they are equal up to case |
| `IndexPage.KeepGrade` | src/pages/Index.tsx:91 | the result is no longer than the input and holds exactly the input's products of the given grade |
| `IndexPage.FilterByGrade` | src/pages/Index.tsx:90-92 | with no grade, or an empty one, the list is returned unchanged; otherwise a product is kept if and only if it is listed and has that grade |
| `IndexPage.KeepGradeAppend` | src/pages/Index.tsx:91 | filtering a concatenation equals concatenating the filtered parts, so the original order is kept |
| `IndexPage.KeepGradeCount` | src/pages/Index.tsx:91 | each product of the grade is kept as many times as it occurs; other products occur zero times |
| `IndexPage.KeepGradeAllMatch` | src/pages/Index.tsx:91 | a list whose products all have the grade passes through the filter unchanged |
| `IndexPage.Merged` | src/pages/Index.tsx:64-79 | when the lookup found a row, the row ids stay the same and only that row's quantity goes up by one; when it found none, exactly the new id is added, holding (user, product, 1); every other row is unchanged |
| `IndexPage.AddToCart` | src/pages/Index.tsx:53-80 | no user: fails with NotAuthenticated and the cart is unchanged; a failed write leaves the cart unchanged; otherwise the cart becomes the merge of the lookup's result; products are never touched |
| `IndexPage.LookupFinds` | src/pages/Index.tsx:57-64 | with at most one row per pair, the lookup returns the user's row for the product when there is one |
| `IndexPage.LookupMisses` | src/pages/Index.tsx:57-64 | with no row for the pair, the lookup returns nothing |
| `IndexPage.AddIncrementsExisting` | src/pages/Index.tsx:64-70 | an existing row's quantity goes up by exactly one; no row is added; every other row is unchanged |
| `IndexPage.AddInsertsNew` | src/pages/Index.tsx:71-79 | exactly one row is added, with this user, this product and quantity 1; every other row is unchanged |
| `IndexPage.AddKeepsUnique` | src/pages/Index.tsx:56-79 | a successful add keeps at most one cart row per (user, product) |
| `IndexPage.FailedLookupDuplicates` | src/pages/Index.tsx:57-62 | if the lookup fails while the row exists, the insert creates a second row for the same pair |
| `IndexPage.AddAgain` | src/pages/Index.tsx:64-70 | when a pair has one row, another add keeps it the only row, adds one to its quantity, and keeps uniqueness |
| `IndexPage.RepeatedAdds` | src/pages/Index.tsx:56-79 | starting with no row for the pair, n serial adds leave exactly one row for it with quantity n; uniqueness holds and other rows are unchanged |
| `Backend.Message` | src/pages/AdminDashboard.tsx:149 | an incomplete admin form reports "Please fill all required fields"; a request without a signed-in user reports "Not authenticated" (raised at src/pages/Index.tsx:54 and src/pages/Cart.tsx:68) |
| `Backend.Lookup` | src/pages/Index.tsx:57-62 | a row is found if and only if exactly one cart row matches the user and product, and the row found matches them |
| `Backend.WithoutUser` | src/pages/Cart.tsx:74-77 | no row of the user remains; every other user's row remains unchanged |
| `Backend.WithoutIds` | src/pages/Cart.tsx:81-84 | no listed id remains; every unlisted product remains unchanged; an empty list deletes nothing |
| `Backend.Database.SelectCartRow` | src/pages/Index.tsx:57-62 | returns the lookup's result when the service answers, and no row when it fails |
| `Backend.Database.UpdateCartQuantity` | src/pages/Index.tsx:66-69 | on success only the row with that id gets the new quantity; products and the id supply are unchanged |
| `Backend.Database.InsertCartRow` | src/pages/Index.tsx:73-77 | on success the row is added under a new id; on failure nothing changes |
| `Backend.Database.DeleteCartRow` | src/pages/Cart.tsx:57 | on success exactly the row with that id is removed |
| `Backend.Database.DeleteUserCart` | src/pages/Cart.tsx:74-77 | on success the cart becomes the cart without the user's rows |
| `Backend.Database.DeleteProductsIn` | src/pages/Cart.tsx:81-84 | on success the products with the listed ids are removed; the cart is unchanged |
| `Backend.Database.InsertProduct` | src/pages/AdminDashboard.tsx:98 | on success the product is added under a new id; the cart is unchanged |
| `Backend.Database.UpdateProduct` | src/pages/AdminDashboard.tsx:92-95 | on success the row with that id, if present, is overwritten; nothing else changes |
| `Backend.Database.DeleteProduct` | src/pages/AdminDashboard.tsx:117 | on success exactly the product with that id is removed |
| `CartPage.LineTotal` | src/pages/Cart.tsx:98 | a line is worth 0 exactly when its price or quantity is 0, and at least its price when one or more is ordered |
| `CartPage.Total` | src/pages/Cart.tsx:97-100 | the total of no items is 0, and no single line's price times quantity exceeds the total |
| `CartPage.TotalAppend` | src/pages/Cart.tsx:97-100 | the total of a concatenation is the sum of the totals |
| `CartPage.TotalWithout` | src/pages/Cart.tsx:97-100 | taking one item out of the list lowers the total by exactly that item's price times quantity |
| `CartPage.TotalPermutation` | src/pages/Cart.tsx:97-100 | two lists holding the same items in any order have the same total |
| `CartPage.TotalZero` | src/pages/Cart.tsx:97-100 | the total is 0 if and only if every line is worth 0 |
| `CartPage.TotalExample` | src/pages/Cart.tsx:97-100 | two kits at 29.99 and one at 54.99 total 114.97 (11497 cents) |
| `CartPage.IsCartView` | src/pages/Cart.tsx:32-50 | the cart query's result for a user: every item is one of the user's rows with its quantity and product id, and its product's name, price and grade are those in the products table; no row appears twice and every row of the user appears; the view is empty exactly when the user has no rows |
| `CartPage.CartViewSize` | src/pages/Cart.tsx:32-50 | the cart view lists exactly as many items as the user has cart rows |
| `CartPage.PurchasedIds` | src/pages/Cart.tsx:71 | one product id per cart item, in order |
| `CartPage.CheckoutRemovesCartProducts` | src/pages/Cart.tsx:71-85 | when the items are the current view of the user's cart, the product of every row the user had is gone after the product delete |
| `CartPage.RemoveFromCart` | src/pages/Cart.tsx:55-58 | on success exactly the row with that id is removed; other rows and the products are unchanged |
| `CartPage.Checkout` | src/pages/Cart.tsx:66-86 | no user: NotAuthenticated and neither table changes; a failed cart delete stops before the product delete, so the products stay; on success the user's rows are gone, other users' rows stay, the listed products are gone and all others stay; succeeds if and only if both deletes do; a failed product delete reports a service error |
| `AdminDashboard.DefaultForm` | src/pages/AdminDashboard.tsx:30-35 | the initial and reset form has empty name, price and link and grade HG, a grade the badge knows; it does not pass the required-field check |
| `AdminDashboard.IsComplete` | src/pages/AdminDashboard.tsx:148 | a form that passes the check has a name and a price, so its product data can be formed |
| `AdminDashboard.ProductDataOf` | src/pages/AdminDashboard.tsx:84-89 | name, price and grade are copied; the link is stored as null if and only if it is empty, and otherwise as typed |
| `AdminDashboard.FormOf` | src/pages/AdminDashboard.tsx:137-142 | the form shows the product's name, price and grade; the link field is empty if and only if the link is null or empty, and otherwise shows the product's link |
| `AdminDashboard.EditRoundTrip` | src/pages/AdminDashboard.tsx:141 | saving an edit form without changes gives back the product's own data if and only if its link is not the empty string |
| `AdminDashboard.FormRoundTrip` | src/pages/AdminDashboard.tsx:88 | saving a form and opening the result for editing shows the same form, link included |
| `AdminDashboard.EditedFormComplete` | src/pages/AdminDashboard.tsx:148 | a product's edit form passes the required-field check if and only if its name is not empty |
| `AdminDashboard.Saved` | src/pages/AdminDashboard.tsx:91-99 | while editing, the row ids stay the same and the edited row, if still present, gets the new data; otherwise exactly the new id is added with the data; every other row is unchanged |
| `AdminDashboard.SaveWhileEditing` | src/pages/AdminDashboard.tsx:91-96 | saving while editing overwrites only the edited product's row; the row count stays the same |
| `AdminDashboard.SaveNew` | src/pages/AdminDashboard.tsx:97-99 | saving a new product adds exactly one row and leaves every existing row unchanged |
| `AdminDashboard.Dashboard.constructor` | src/pages/AdminDashboard.tsx:28-35 | the dashboard starts with the default form, nothing being edited and the dialog closed |
| `AdminDashboard.Dashboard.ResetForm` | src/pages/AdminDashboard.tsx:130-133 | the fields go back to empty name, price and link with grade "HG", and nothing is being edited |
| `AdminDashboard.Dashboard.OpenNew` | src/pages/AdminDashboard.tsx:167-172 | the Add Product button resets the form to the defaults, clears the edited product, and opens the dialog |
| `AdminDashboard.Dashboard.SetDialogOpen` | src/pages/AdminDashboard.tsx:167 | opening or closing the dialog sets only the dialog flag; the form and the edited product are kept |
| `AdminDashboard.Dashboard.HandleEdit` | src/pages/AdminDashboard.tsx:135-144 | the product is being edited, the form shows its fields, and the dialog is open |
| `AdminDashboard.Dashboard.Save` | src/pages/AdminDashboard.tsx:82-108 | on success the table is updated or inserted into as described, the form is reset and the dialog closed; on failure the table and the form are unchanged; the cart is never touched |
| `AdminDashboard.Dashboard.HandleSubmit` | src/pages/AdminDashboard.tsx:146-153 | an empty name or an empty price fails with MissingFields and nothing is saved or changed; otherwise the form is saved, and then on success the form is reset and the dialog closed, and on failure the form, the edited product and the dialog stay as they were |
| `AdminDashboard.Dashboard.Delete` | src/pages/AdminDashboard.tsx:115-119 | on success exactly the product with that id is removed; all other products and the cart are unchanged |

## Left out

- The service itself is not modelled: authentication, sign-out, the network, and row-level access rules. Only its answer to each request is modelled, as the `ok` parameters. The current user is a parameter (`None` when no one is signed in).
- A delete that the access rules silently refuse reports success and removes nothing. The model has only two answers, success with the effect or failure with no effect.
- The foreign key from cart rows to products, and any cascading delete, are not modelled.
- src/components/Header.tsx is not part of this model. It only fetches the session and profile, signs out, and renders navigation.
- Query caching and invalidation are left out. So are toasts, navigation and redirects, the admin-only gate, the disabled state of pending buttons, and all rendering.
- The form fields' `onChange` handlers are left out. Each only replaces one field of the form.
- The race between overlapping add-to-cart calls is left out. Calls are taken to be serial, with at most one row per (user, product) assumed where a lemma needs it.
- The code computes the total over floating-point numbers; the model sums whole cents exactly, so rounding of the floating-point sum is not modelled.
- Converting prices between text and number (`parseFloat`, `toString`) and formatting them with `toFixed(2)` are left out. Prices are whole cents. The price field of the form is either empty or holds a price.
- A price is taken to be a non-negative number of cents (`nat`). The price input itself has no lower bound and a negative number passes the required-field check. `CartPage.Total`'s bound that no line exceeds the total, `CartPage.LineTotal` and `CartPage.TotalZero` hold only for non-negative prices.
- The products are listed newest first. That order is chosen by the service's query, not by the page, and is left out.
- A cart row whose product has been deleted joins to no product. The page code would then fail on it. The model's cart items always carry a product.
- The service's check that a grade is one of HG, MG, SD, PG and RG is left out. The form's select only offers those five.
- `GradeBadge.ToUpper` handles only ASCII letters. Full Unicode case mapping, where one character can become several, is not modelled.
- `GradeBadge.ToLower` handles only ASCII letters, for the same reason as `GradeBadge.ToUpper`.
- `IndexPage.RepeatedAdds` gives every add the same new id. Only the first add inserts, so the ids offered to the later adds are never used.
