# A verified model of a small e-commerce backend

This project models the core of a Node/Express shop backend written in
TypeScript over MongoDB, and proves properties of that model in Dafny. The
core has six parts:

- **Order placement and cancellation.** `createOrderService` walks the
  requested lines. For each one it looks up the product, checks stock,
  snapshots the product into an order item, decrements the stock and saves
  it. Only after the loop does it create the order. `cancelOrderService`
  gives the stock back. `updateOrderStatusService` and
  `getUserOrdersService` are modelled too.
- **The catalog.** This is the product schema and get/update/delete by id
  over a product map, with the case-insensitive search and the inventory
  decrement of `product.service.ts`. It also covers the form-field parsing
  at the start of `createProduct`.
- **The credential store.** This is the user schema with its setters
  (trimmed name, lower-cased and trimmed email) and its validators, plus
  the hash-if-modified pre-save hook and `comparePassword`. On top of it
  sit register, login, profile update, change-password and delete.
- **The authorization gates.** These are bearer-token extraction and the
  decisions of `protect`, `restrictTo`, `adminOnly` and `optionalAuth`.
- **The request validators.** The zod schemas are written as predicates on
  JSON values.
- **The image helpers.** These are the upload MIME filter, the size limit,
  and the public id derived from an image URL.

The stores and objects the source changes in place are classes:
- `ProductCollection`, `OrderCollection` and `UserCollection`;
- the request that the gates attach a user to.

Their methods carry `modifies` clauses. They are tied to pure functions
(`ReserveAll`, `RestoreAll`, `RegisterIn`, `ChangePasswordIn`, …), and the
lemmas are proved about those functions. The two loops of the order
service are `while` loops. Their invariants say that the state after `i`
steps is the specification function applied to the first `i` lines or
items.

Bcrypt and JWT are a value `Primitives` holding four functions: hash,
compare, sign and verify. Nothing is assumed about them globally. Two
hypotheses appear as preconditions of the lemmas that need them:
- `Sound`: a password matches its own hash (`HashedPasswordMatches`,
  `RegisterThenLogin`, `LoginAfterPasswordChange`);
- `verify` returns the claims that `sign` put into the token
  (`AuthMiddleware.IssuedTokenPasses`). The zod email check, `JSON.parse`, `parseFloat` and
`parseInt` are function parameters. Prices and quantities in the stores
are integers (minor units).

Files, one module each:
- `wrappers.dfy`: Option and Result.
- `text.dfy`: JavaScript `trim`, ASCII lower-casing, `startsWith`,
  substring search, and `split`/`join` on one character.
- `email.dfy`: the pattern `^\S+@\S+\.\S+$`.
- `crypto.dfy`, `js.dfy`: crypto primitives and JavaScript values.
- `product_model.dfy`, `catalog.dfy`, `product_form.dfy`: the catalog.
- `order_model.dfy`, `order_service.dfy`: orders.
- `user_model.dfy`, `auth_service.dfy`: users.
- `auth_middleware.dfy`: the gates.
- `validation.dfy`: the validators.
- `cloudinary.dfy`: the image helpers.

Where the behaviour depends on Mongoose rather than on the repository's
code, the model makes these assumptions:
- The setters run before the validators on `create`, so a product or user
  name is validated and stored trimmed.
- The trim and lowercase setters also apply to query filters and to
  `$set` updates, so an email lookup compares normalised addresses.
- Update validators run before the document is looked up.
- A `required` array accepts the empty array.

## Model

| member | source | states |
|---|---|---|
| OrderService.TakeStock | src/services/order.service.ts:33-36 | the quantity drops by exactly the amount taken; `inStock` is cleared exactly when the new quantity is 0 and is never set |
| OrderService.ReserveLine | src/services/order.service.ts:11-37 | one line fails with "not found" exactly when the product id is absent, fails with "out of stock", naming the product, exactly when it is flagged out of stock or has less than requested, and otherwise succeeds |
| OrderService.ReserveStep | src/services/order.service.ts:10-38 | a step keeps the set of products and every product's listing fields; it succeeds exactly when all earlier steps and this line succeed, and then adds one item |
| OrderService.StepTakesStock | src/services/order.service.ts:22-37 | a successful step appends the snapshot of the product as read at that step and stores it with the requested quantity taken |
| OrderService.ReserveAll | src/services/order.service.ts:10-38 | the whole loop keeps the set of products and their listing fields; on success there is one item per line; a failure is always "not found" or "out of stock" |
| OrderService.ReserveFailureSticks | src/services/order.service.ts:13-19 | once a line has failed, later lines change neither the stock nor the error |
| OrderService.ReserveNeverRestocks | src/services/order.service.ts:34-36 | placement never sets `inStock` to true |
| OrderService.ReserveKeepsQuantitiesNonNegative | src/services/order.service.ts:17-33 | with every requested quantity positive, no stock quantity goes below zero |
| OrderService.SnapshotAt | src/services/order.service.ts:22-28 | item k copies the name, price and image of line k's product, with line k's quantity, and that product existed and was flagged in stock |
| OrderService.ReserveSnapshots | src/services/order.service.ts:22-28 | on success the items follow the request order, one per line, each a snapshot of its product with the requested quantity |
| OrderService.ReserveAccounting | src/services/order.service.ts:33-37 | on success each product's quantity dropped by the sum requested for it over all lines, so duplicate ids accumulate |
| OrderService.ReserveUntouched | src/services/order.service.ts:10-38 | on success a product that no line names is unchanged |
| OrderService.ReserveInStockFlag | src/services/order.service.ts:33-36 | on success every ordered product is flagged in stock exactly when its quantity is not 0 |
| OrderService.ReserveFailureKeepsEarlierLines | src/services/order.service.ts:10-38 | a failed placement fails at some line k, and the stock is what the first k lines left behind |
| OrderService.FailedPlacementKeepsDecrements | src/services/order.service.ts:10-41 | when placement fails, there is a line k such that every product's quantity is its original minus what the lines before k requested (`PlaceOrder` states that no order is then created) |
| OrderService.ReserveErrorCause | src/services/order.service.ts:13-19 | "not found" names a missing product that some line asks for; "out of stock" carries the name of a product that some line asks for |
| OrderService.MissingProductFails | src/services/order.service.ts:11-15 | a request naming a product that does not exist cannot succeed |
| OrderService.SnapshotOrderValidity | src/models/order.model.ts:28-55 | snapshot items satisfy the item schema exactly when every requested quantity is at least 1 |
| OrderService.PlacedOrderValidity | src/services/order.service.ts:41-45 | the created order passes the order schema exactly when there is a line, the email has the required shape and every quantity is at least 1 |
| OrderService.NegativeQuantityChangesStock | src/services/order.service.ts:17-37 | a line with quantity -3 passes the stock check and raises the stock from 2 to 5, while the order is then refused by the schema |
| OrderService.RestoreAccounting | src/services/order.service.ts:105-112 | cancellation keeps the set of products and their listings, adds back the sum of the item quantities to each product that still exists, and flags exactly those products, plus the ones already flagged, in stock |
| OrderService.CancelUndoesPlacement | src/services/order.service.ts:105-112 | cancelling just after a successful placement restores the product map exactly |
| OrderService.RestoreLine | src/services/order.service.ts:106-111 | definition: one cancellation step adds the item's quantity back and sets `inStock`, skipping a deleted product |
| OrderService.RestoreAll | src/services/order.service.ts:105-112 | definition: the cancellation loop over the items in order; `RestoreAccounting` and `CancelUndoesPlacement` are its properties |
| OrderService.UserOrders | src/services/order.service.ts:51-57 | an order is listed exactly when it belongs to the user |
| OrderService.UserOrdersNewestFirst | src/services/order.service.ts:52-54 | with ids increasing in creation order, the list is strictly newest first |
| OrderService.FindOrder | src/services/order.service.ts:94 | finds an order with that id, or reports that there is none |
| OrderService.OrderCollection.Insert | src/services/order.service.ts:41-45 | a schema-valid order with the next id is appended and the id counter advances |
| OrderService.OrderCollection.SetAt | src/services/order.service.ts:114-115 | an order is replaced in place by a valid one with the same id |
| OrderService.OrderCollection.UpdateStatus | src/services/order.service.ts:79-90 | an unknown status is refused; an unknown id gives null; otherwise only that order's status changes, with no transition rule |
| OrderService.TakeLine | src/services/order.service.ts:11-37 | one iteration does to the stored products what `ReserveLine` specifies, and leaves them unchanged on failure |
| OrderService.ReserveStock | src/services/order.service.ts:7-38 | the loop leaves the stock and items that `ReserveAll` specifies, and the running total equals `Total` of the items |
| OrderService.PlaceOrder | src/services/order.service.ts:5-48 | the stock always ends as `ReserveAll` specifies; a failed line gives its error and creates no order; otherwise the order is stored, pending and totalled, or refused when the schema rejects it |
| OrderService.GiveBack | src/services/order.service.ts:106-111 | one cancellation step does what `RestoreLine` specifies |
| OrderService.RestoreStock | src/services/order.service.ts:105-112 | the cancellation loop leaves the products as `RestoreAll` specifies |
| OrderService.CancelOrder | src/services/order.service.ts:93-118 | an unknown id or another user's order gives "Order not found"; a non-pending order gives the pending error; otherwise the stock is restored and only that order's status becomes cancelled |
| OrderModel.ParseStatus | src/models/order.model.ts:85-89 | exactly the five enum names are accepted, each as its status |
| OrderModel.ParseStatusName | src/models/order.model.ts:85-89 | every status's name parses back to it |
| OrderModel.TotalNonNegative | src/models/order.model.ts:83 | items with non-negative prices and quantities never total below zero |
| OrderModel.TotalAppend | src/services/order.service.ts:30 | adding an item adds price times quantity to the total |
| OrderModel.NewOrder | src/models/order.model.ts:88 | a new order's status is the default, pending |
| OrderModel.ItemValid | src/models/order.model.ts:28-55 | definition: the item schema, a non-empty name, a price of at least 0 and a quantity of at least 1 |
| OrderModel.OrderValid | src/models/order.model.ts:58-101 | definition: the order schema, an email of the required shape, at least one item, every item valid and a total of at least 0 |
| OrderModel.Total | src/services/order.service.ts:30 | definition: the sum of price times quantity over the items; `TotalAppend` and `TotalNonNegative` are its properties |
| ProductModel.InStockIndependentOfQuantity | src/models/product.model.ts:51-54 | the schema admits an empty product flagged in stock and a stocked product flagged out |
| ProductModel.WithInventoryValid | src/models/product.model.ts:44-57 | validity of a product does not depend on its inventory beyond the inventory's own rule |
| ProductModel.ProductValid | src/models/product.model.ts:60-105 | definition: the product schema, a non-empty trimmed name, non-empty description and category, a price of at least 0, valid variants and a quantity of at least 0 |
| ProductModel.ApplySetters | src/models/product.model.ts:62-66 | the name comes out trimmed, as a slice of the original with only whitespace cut, and no other field changes |
| ProductModel.SettersKeepStored | src/models/product.model.ts:62-66 | a valid product is a fixed point of the setters |
| ProductModel.SettersIdempotent | src/models/product.model.ts:62-66 | running the setters twice equals running them once |
| ProductModel.SettersValid | src/models/product.model.ts:60-105 | after the setters, the schema accepts a product exactly when its trimmed name is non-empty and its other fields meet their rules |
| ProductModel.SettersTrimName | src/models/product.model.ts:65 | the name " Mug" is stored as "Mug" and the product is accepted |
| Catalog.Search | src/services/product.service.ts:40-50 | a product matches exactly when its name, description, category or one of its tags contains the term, ignoring case |
| Catalog.SearchWithEmptyTerm | src/services/product.service.ts:40-50 | the empty term finds every product |
| Catalog.SearchIgnoresCaseOfTerm | src/services/product.service.ts:43-46 | the case of the term does not change the result |
| Catalog.MatchesLoweredTerm | src/services/product.service.ts:43-46 | a product matches the lower-cased term exactly when it matches the term |
| Catalog.SearchFindsLiteralOccurrence | src/services/product.service.ts:42-47 | a product whose field contains the term literally is found |
| Catalog.MatchesTerm | src/services/product.service.ts:42-47 | definition: the term occurs, ignoring case, in the name, description, category or some tag |
| Catalog.ApplyPatch | src/services/product.service.ts:26-29 | definition: `$set` of the fields the update carries, the name through the trim setter; `ApplyNoChanges` and `ApplyPatchPreservesValidity` are its properties |
| Catalog.ApplyNoChanges | src/services/product.service.ts:26-29 | an empty update leaves a product as it was |
| Catalog.ApplyPatchPreservesValidity | src/services/product.service.ts:26-29 | a validated update keeps a product valid; a given price is set, and an absent price or inventory is left as it was |
| Catalog.UpdateCanDesyncInStock | src/services/product.service.ts:26-29 | an update may store quantity 0 flagged in stock |
| Catalog.SellFromInventory | src/services/product.service.ts:64-70 | fails exactly when less is stocked than ordered; otherwise the quantity drops by the amount ordered and `inStock` is recomputed as quantity > 0 |
| Catalog.SellKeepsInventoryValid | src/services/product.service.ts:64-70 | a successful sale keeps the quantity non-negative |
| Catalog.ProductCollection.Find | src/services/product.service.ts:16-19 | returns the stored product exactly when the id is present |
| Catalog.ProductCollection.Save | src/services/order.service.ts:37 | a valid product replaces the stored one under its id and nothing else changes |
| Catalog.ProductCollection.Create | src/services/product.service.ts:4-7 | the name setter runs first; a product the schema then accepts is stored, with its name trimmed, under a fresh id and returned as stored; otherwise it is refused and nothing changes |
| Catalog.ProductCollection.Update | src/services/product.service.ts:22-31 | an invalid update is refused; an unknown id gives null; otherwise only that product changes, as the update says |
| Catalog.ProductCollection.Delete | src/services/product.service.ts:34-37 | removes exactly that id and returns what was stored, or null |
| Catalog.ProductCollection.UpdateInventory | src/services/product.service.ts:53-74 | an unknown id gives null; a short stock is an error with nothing changed; otherwise only that product's inventory changes, as `SellFromInventory` says |
| UserModel.ParseRole | src/models/user.model.ts:43-47 | exactly "customer" and "admin" are roles |
| UserModel.ParseRoleName | src/models/user.model.ts:43-47 | every role's name parses back to it |
| UserModel.NormalizeEmail | src/models/user.model.ts:33-34 | definition: the lowercase and trim setters; `NormalizeEmailIdempotent` is its property |
| UserModel.NormalizeEmailIdempotent | src/models/user.model.ts:33-34 | normalising twice equals normalising once, and the two setters commute |
| UserModel.PreSave | src/models/user.model.ts:70-84 | saving clears the modified flag and changes no field except the password |
| UserModel.PreSaveHashesOnce | src/models/user.model.ts:72-74 | a second save without assigning the password does not hash again |
| UserModel.HashedPasswordMatches | src/models/user.model.ts:87-91 | after a modified password is hashed, that password passes `comparePassword` |
| UserModel.ComparePassword | src/models/user.model.ts:87-91 | definition: bcrypt's compare of the candidate with the stored hash |
| Text.TrimIdempotent | src/models/user.model.ts:27 | trimming a trimmed name changes nothing |
| Text.LowerTrimCommute | src/models/user.model.ts:33-34 | lower-casing and trimming can run in either order |
| Text.SplitJoin | src/controllers/product.controller.ts:34 | splitting undoes joining when no piece holds the separator |
| Text.JoinSplit | src/controllers/product.controller.ts:34 | joining undoes splitting |
| Text.SplitFirst | src/config/cloudinary.ts:84 | the first piece of a split is the text before the first separator |
| Text.Trim | src/models/user.model.ts:27 | the result is trimmed and is a slice of the input with only whitespace cut from both ends |
| Text.Lower | src/models/user.model.ts:33 | the result has the input's length and maps each ASCII capital to its lower case, leaving other characters alone |
| Text.Split | src/controllers/product.controller.ts:34 | there is at least one piece and no piece holds the separator |
| Text.Join | src/config/cloudinary.ts:83 | definition: the pieces with the separator between them; `SplitJoin` and `JoinSplit` are its properties |
| EmailPattern.IsEmailShaped | src/models/user.model.ts:35 | the linear check accepts exactly what the email pattern matches |
| Validation.Get | src/validators/validation.ts:16-24 | a key is found exactly when the object has a member with it; the value is that of the last such member |
| Validation.VariantValid | src/validators/validation.ts:4-7 | definition: non-empty `type` and `value` strings |
| Validation.InventoryValid | src/validators/validation.ts:10-13 | definition: an integer `quantity` of at least 0 and a boolean `inStock` |
| Validation.ProductPayloadValid | src/validators/validation.ts:16-24 | definition: non-empty name, description and category, a positive price, at least one string tag, at least one valid variant and a valid inventory |
| Validation.OrderLineValid | src/validators/validation.ts:27-32 | definition: an email, a non-empty product id, a positive price and a positive integer quantity |
| Validation.ProfileValid | src/validators/validation.ts:35-40 | definition: every profile field absent or a string |
| Validation.ToProfile | src/validators/validation.ts:35-40 | each field of the parsed profile is what the object carries under its key, or absent when the key is |
| Validation.ParseRoleField | src/validators/validation.ts:47 | an absent role defaults to customer; a present one is accepted exactly when it is "customer" or "admin" |
| Validation.ParseSignup | src/validators/validation.ts:43-49 | a signup payload is accepted exactly when name, email, password, role and profile pass their rules; the result holds the payload's name, email and password, its role (customer when absent), and its profile field by field |
| Validation.ParseLogin | src/validators/validation.ts:52-55 | a login payload is accepted exactly when the email passes and the password is non-empty; the result holds the payload's email and password |
| Validation.ParseUpdateProfile | src/validators/validation.ts:58-61 | accepted exactly when a given name is non-empty and a given profile is valid; the result has a name or profile exactly when the payload does, holding the payload's values |
| Validation.ParseChangePassword | src/validators/validation.ts:64-67 | accepted exactly when the current password is non-empty and the new one has at least six characters; the result holds the payload's two passwords |
| Validation.SignupObject | src/validators/validation.ts:43-49 | the payload built from four strings carries them under their keys and has no profile |
| Validation.SignupAcceptsAdmin | src/validators/validation.ts:47 | an explicit "admin" is accepted as admin, "customer" as customer, and any other role refused |
| Validation.ZeroPriceRefused | src/validators/validation.ts:19 | a price of 0 fails product validation |
| Validation.OrderLineMeetsItemSchema | src/validators/validation.ts:27-32 | an accepted order line has an integer quantity of at least 1 and a positive price |
| AuthService.SessionIgnoresPassword | src/services/auth.service.ts:30-31 | the returned user and token do not depend on the stored password |
| AuthService.IssueToken | src/services/auth.service.ts:7-13 | definition: the signature of the user's id, email and role name; `IssuedTokenPasses` is its property |
| AuthService.FindUser | src/services/auth.service.ts:18 | the lookup gives the first user with the key (an email or an id), or None exactly when no user has it |
| AuthService.FindByEmail | src/services/auth.service.ts:18 | definition: `findOne({ email })` is `FindUser` on the email |
| AuthService.FindById | src/services/auth.service.ts:92 | definition: `findById` is `FindUser` on the id |
| AuthService.FindUniqueEmail | src/models/user.model.ts:32 | with unique emails the lookup returns the one user with that email |
| AuthService.NewUser | src/services/auth.service.ts:24 | creation succeeds exactly when the trimmed name is present, the normalised email has the required shape and the plain password has at least six characters; the stored user has the trimmed name, the normalised email and the hashed password |
| AuthService.NewUserStored | src/models/user.model.ts:24-36 | a created user carries the setters' output and matches the email pattern |
| AuthService.Login | src/services/auth.service.ts:37-60 | login succeeds exactly when a user has the normalised email and the password matches; both failures give the same error; the token signs that user's id, email and role |
| AuthService.ApplyProfileUpdate | src/services/auth.service.ts:73-77 | only the given keys change: a given name, trimmed, and a given profile as a whole |
| AuthService.EmptyUpdateChangesNothing | src/services/auth.service.ts:73-77 | an update with no keys leaves the user as it was |
| AuthService.UpdateKeepsStored | src/services/auth.service.ts:73-77 | an accepted update keeps a stored user valid |
| AuthService.AppendKeepsStore | src/models/user.model.ts:29-36 | adding a valid user with a fresh id and an unused email keeps ids and emails unique |
| AuthService.ReplaceKeepsStore | src/models/user.model.ts:29-36 | replacing a user by a valid one with the same id and email keeps the store valid |
| AuthService.RemoveKeepsStore | src/models/user.model.ts:29-36 | removing a user keeps the store valid |
| AuthService.RegisterIn | src/services/auth.service.ts:16-34 | "User already exists with this email" exactly when the normalised email is stored, a validation error exactly when creation fails, otherwise one user appended and a session for it; a refusal changes nothing |
| AuthService.RegisteredEmailFound | src/services/auth.service.ts:24 | after registering, the email finds the new user |
| AuthService.RegisterKeepsStore | src/services/auth.service.ts:16-34 | registration keeps ids and emails unique and every user valid |
| AuthService.ChangePasswordIn | src/services/auth.service.ts:87-110 | "User not found" for an absent id and "Current password is incorrect" for a wrong one, with nothing changed; on success only that user's password changes, to the hash of the new one |
| AuthService.ChangePasswordKeepsStore | src/services/auth.service.ts:106-107 | a password change keeps the store valid |
| AuthService.UpdateProfileIn | src/services/auth.service.ts:69-84 | an invalid update is refused; an absent id gives "User not found"; otherwise only the given keys of that user change and it comes back without its password |
| AuthService.UpdateProfileKeepsStore | src/services/auth.service.ts:73-77 | a profile update keeps the store valid |
| AuthService.DeleteIn | src/services/auth.service.ts:119-125 | "User not found" for an absent id; otherwise exactly that user is removed and returned |
| AuthService.DeleteRemovesId | src/services/auth.service.ts:120 | with unique ids, the id is gone after a delete |
| AuthService.DeleteKeepsStore | src/services/auth.service.ts:120 | a delete keeps the store valid |
| AuthService.UserCollection.Register | src/services/auth.service.ts:16-34 | the store and the response are those `RegisterIn` specifies |
| AuthService.UserCollection.ChangePassword | src/services/auth.service.ts:87-110 | the store and the response are those `ChangePasswordIn` specifies |
| AuthService.UserCollection.UpdateProfile | src/services/auth.service.ts:69-84 | the store and the response are those `UpdateProfileIn` specifies |
| AuthService.UserCollection.Delete | src/services/auth.service.ts:119-125 | the store and the response are those `DeleteIn` specifies |
| AuthService.RegisterThenLogin | src/services/auth.service.ts:37-60 | a user who just registered logs in with the same email and password |
| AuthService.LoginAfterPasswordChange | src/services/auth.service.ts:106-107 | after a password change the new password logs in |
| AuthMiddleware.ExtractToken | src/middleware/auth.middleware.ts:30-35 | a token comes only from a header starting with `Bearer`; it is the non-empty second space-separated field |
| AuthMiddleware.BearerRoundTrip | src/middleware/auth.middleware.ts:30-35 | `Bearer <token>` yields the token, whatever fields follow |
| AuthMiddleware.NoHeaderNoToken | src/middleware/auth.middleware.ts:30-35 | no header, or `Bearer` alone, yields no token |
| AuthMiddleware.DoubleSpaceNoToken | src/middleware/auth.middleware.ts:34 | a double space after `Bearer` yields no token |
| AuthMiddleware.PrefixWithoutSpaceAccepted | src/middleware/auth.middleware.ts:32 | the prefix test does not require the space: `Bearerfoo <token>` yields the token |
| AuthMiddleware.ProtectDecision | src/middleware/auth.middleware.ts:21-75 | 401 without a token, 401 "Invalid token" when verification fails, 401 "User not found" without a user, otherwise on with that user attached; never 403 |
| AuthMiddleware.OptionalAuthDecision | src/middleware/auth.middleware.ts:118-149 | always on, never an error response |
| AuthMiddleware.OptionalAuthAgreesWithProtect | src/middleware/auth.middleware.ts:133-143 | a user is attached exactly when `protect` would let the request through, and it is the same user |
| AuthMiddleware.RestrictTo | src/middleware/auth.middleware.ts:78-96 | 401 exactly without a user, 403 exactly when the role is not listed, otherwise on |
| AuthMiddleware.AdminOnly | src/middleware/auth.middleware.ts:99-115 | on exactly for an attached admin |
| AuthMiddleware.AdminOnlyIsRestrictToAdmin | src/middleware/auth.middleware.ts:99-115 | the decision equals that of `restrictTo('admin')`; only the 403 message differs |
| AuthMiddleware.CustomerGates | src/middleware/auth.middleware.ts:87-111 | a customer passes `restrictTo('customer', 'admin')` and is refused by `adminOnly` and `restrictTo('admin')` |
| AuthMiddleware.IssuedTokenPasses | src/middleware/auth.middleware.ts:47-61 | a token issued for a stored user, which verifies to its claims, gets that user through `protect` |
| AuthMiddleware.Protect | src/middleware/auth.middleware.ts:21-75 | the outcome is `ProtectDecision`'s, and the request gets the user exactly when it goes on |
| AuthMiddleware.OptionalAuth | src/middleware/auth.middleware.ts:118-149 | always on; the request gets a user only when the token verifies and the user exists |
| ProductForm.CleanTags | src/controllers/product.controller.ts:34 | every kept tag is non-empty and trimmed, and there are no more tags than pieces |
| ProductForm.ParseTags | src/controllers/product.controller.ts:34 | an absent or empty field gives no tags; every tag is non-empty and trimmed |
| ProductForm.ParsedTagsHaveNoComma | src/controllers/product.controller.ts:34 | no parsed tag contains a comma |
| ProductForm.CleanTagsOfClean | src/controllers/product.controller.ts:34 | clean pieces pass through unchanged and in order |
| ProductForm.CleanTagsSkipsBlank | src/controllers/product.controller.ts:34 | blank pieces are dropped |
| ProductForm.TagsRoundTrip | src/controllers/product.controller.ts:34 | clean tags joined with commas parse back to the same list |
| ProductForm.ParseTagsStable | src/controllers/product.controller.ts:34 | parsed tags, joined again, parse to themselves |
| ProductForm.ParsePrice | src/controllers/product.controller.ts:32 | an absent price parses to NaN |
| ProductForm.DefaultInventory | src/controllers/product.controller.ts:36-39 | the quantity is parsed from `quantity`, from '0' when that is absent or empty; `inStock` is true exactly for 'true' or `true` |
| ProductForm.ParseJsonField | src/controllers/product.controller.ts:35-36 | a falsy field gives the default; a truthy one is parsed |
| ProductForm.CategoryData | src/controllers/product.controller.ts:44-50 | set exactly when the field is truthy: the parsed JSON when it parses, otherwise the raw text |
| ProductForm.BuildProductData | src/controllers/product.controller.ts:21-58 | a JSON field that does not parse is an error; otherwise a missing name, description or category or a falsy price is refused; otherwise the data carries the parsed fields and the uploaded image |
| ProductForm.ZeroPriceRefused | src/controllers/product.controller.ts:53-58 | a price that parses to 0 is refused as missing |
| ProductForm.PlainFormDefaults | src/controllers/product.controller.ts:29-41 | without JSON fields the variants are empty and the inventory is the default one |
| ProductForm.ImageOnlyWhenUploaded | src/controllers/product.controller.ts:24-26 | the data has an image exactly when a file was uploaded |
| Cloudinary.FileFilter | src/config/cloudinary.ts:33-39 | a file is accepted exactly when its MIME type starts with `image/`; otherwise it is refused with "Only image files are allowed!" |
| Cloudinary.FileFilterExamples | src/config/cloudinary.ts:33-39 | `image/png` passes; `application/pdf` and a bare `image` do not |
| Cloudinary.LastTwo | src/config/cloudinary.ts:83 | the last two segments, or all of them when there are fewer |
| Cloudinary.PublicId | src/config/cloudinary.ts:82-84 | the id is the joined last two segments cut before their first `.`, and contains no `.` |
| Cloudinary.PublicIdOfUpload | src/config/cloudinary.ts:82-84 | a URL ending `<folder>/<name>.<ext>` gives `<folder>/<name>` |
| Cloudinary.PublicIdOfOneSegment | src/config/cloudinary.ts:82-84 | a URL with one segment gives that segment up to its first `.` |
| Cloudinary.PublicIdWithoutDot | src/config/cloudinary.ts:82-84 | a URL without `.` is not truncated |

## Left out

- HTTP plumbing is not modelled: Express handlers, response envelopes, status-code mapping, routers, `app.ts`, `server.ts` and the admin-creation script. The gates' outcomes stand for their responses.
- The 500 branch of `protect` and the outer `catch` of `optionalAuth` are left out: nothing in the modelled decision can throw outside the inner `try`.
- The MongoDB driver is replaced by maps and sequences, and queries by lookups. `populate` joins, `createdAt` timestamps (an increasing id stands for creation order) and the `select` projections are not modelled, except that register, login and profile update return the user without its password. `deleteUserService` returns the whole deleted document, hash included, and `DeleteIn` does the same.
- Concurrency is out of scope: requests run one after another. The race between concurrent read-modify-write stock updates is not modelled.
- The getters `getAllProductsService`, `getAllOrdersService`, `getOrderByIdService`, `getUserProfileService` and `getAllUsersService` are single reads of the stores. They are not modelled.
- Bcrypt salts, work factors and token expiry are out of scope. Hash, compare, sign and verify are arbitrary functions, and the two hypotheses named above (`Sound`, and `verify` inverting `sign`) are preconditions of the lemmas that need them.
- Floating point is not modelled. Store prices and quantities are integers, and validator and form numbers are reals. `parseFloat`/`parseInt` rounding is left to the parser parameters.
- Lower-casing covers ASCII letters only. Unicode case mapping is not modelled.
- The search term is matched as literal text, not as a regular expression.
- The zod email check and `JSON.parse` are parameters. A JSON object with duplicate keys is read with the last key winning.
- The image upload stream, multer's memory storage, storage, and `destroy` are foreign I/O. The uploaded URL is a parameter of the form handling.
- The `Product.create` call that follows the form handling is outside lines 21-58. `ProductCollection.Create` models the service on its own.
- OrderService.PlaceOrder: the controller's empty-items guard (src/controllers/order.controller.ts:24) is not part of the service. Without it, an empty request is refused only by the order schema, after the (empty) loop.
- AuthService.Login, AuthService.RegisterIn: the email lookup normalises the query. This relies on Mongoose applying the schema's setters to query filters, which is library behaviour and not this repository's code.
- AuthService.UpdateProfileIn: the update validators are taken to run before the lookup. So an invalid update is refused even for an unknown id.
- String lengths count characters (code points). zod's `.min(n)` and Mongoose's `minlength` count UTF-16 code units, so a password of three emoji has length 6 in the source and is accepted, but has length 3 here and is refused. `MinPasswordLength` and every `StringAtLeast` are affected.
- Ids are natural numbers, so a malformed id cannot be expressed. In the source, an id that is not an ObjectId makes `findById`, `findByIdAndUpdate` and `findByIdAndDelete` throw a `CastError` instead of returning null. In `protect` this surfaces as the "Invalid token" 401; in the services it is a thrown error rather than "not found".
- The 5 MiB upload limit is the constant `MaxFileSize` with the predicate `WithinSizeLimit`; multer enforces it, so no operation of the model uses it.
