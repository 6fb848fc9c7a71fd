# Online store write rules, in Dafny

This project models the write side of a small Django REST shop: products,
product reviews, orders with their positions (order lines), product
collections and per-user favourites. The store is a class, `Store.Shop`,
whose fields are maps from id to record, one per table. Each write request
is a method of that class. It runs in the order the REST framework uses:

1. the view's permission classes;
2. the lookup of the object in the view's queryset (404 when it is not there);
3. the object permissions;
4. the serializer's field rules and its `validate()`;
5. only then, changes to the tables.

A refused request leaves every table and the id counter as they were.

The modules follow the source files:

- `Models` (api/models.py): the records, the field bounds (price and
  order_sum at least 0, rating 1..5, amount at least 1), the status enum
  and its default, and the uniqueness rules the serializers keep. It also
  holds the cascade deletes of products, orders and collections.
- `Views` (api/views.py): `get_permissions` of each viewset. Orders and
  favourites are scoped by owner, and a detail route decides between 401,
  403, 404 and success.
- `Validation` (the `validate()` methods and field rules of
  api/serializers.py): the duplicate test by set cardinality and the
  key-set whitelist of updates.
- `OrderLines`, `Pricing` and `Memberships` (the `create`/`update` bodies
  of the order and collection serializers):
  - the bulk insert of order lines;
  - the upsert-by-product loop of an order update;
  - the order total, at create time and as recomputed on update;
  - the add-only merge of collection members.
- `Store`: the class and its request methods, and the lemmas that each
  write keeps the store valid.

Money is integer cents, so the `round(..., 2)` of the source is exact. A
caller is `Anonymous` or `User(id, isStaff)`. The day a row is written is a
parameter (`today`). One counter hands out the ids of every table.

Where the code and its design notes differ, the model follows the code:

- `status` is a writable field of the order serializer, so a create may
  set any status. It is NEW only when omitted.
- A product id in a payload that does not resolve is a field error (400)
  raised by the related-field lookup, not a 404.
- Listing or reading orders as an anonymous caller filters on an
  anonymous user and fails inside the ORM (modelled as `InternalError`).
  Mutating order requests answer 401 first.

## Model

| member | source | states |
|---|---|---|
| Models.DeleteProduct | api/models.py:60-133 | deleting a product removes it, and exactly its reviews, order lines, memberships and favourites; orders and collections stay, surviving rows are unchanged |
| Models.DeleteOrder | api/models.py:114 | deleting an order removes it and exactly its lines; every other table is unchanged |
| Models.DeleteCollection | api/models.py:127 | deleting a collection removes it and exactly its memberships; every other table is unchanged |
| Models.KeptValid | api/models.py:43-133 | removing rows keeps every bound and uniqueness rule, and references stay valid when no survivor points at a removed row |
| Models.DeleteProductValid | api/models.py:60-133 | the product cascade leaves no dangling reference |
| Models.DeleteOrderValid | api/models.py:114 | the order cascade leaves a valid store |
| Models.DeleteCollectionValid | api/models.py:127 | the collection cascade leaves a valid store |
| Views.CheckPermissions | api/views.py:23-26 | the view permissions pass iff every permission class allows the caller; a refusal is 401 for an anonymous caller, 403 otherwise |
| Views.CheckObjectPermissions | api/views.py:35-38 | the object permissions pass iff every class allows the caller on this object; refusals as above |
| Views.CatalogWritesNeedStaff | api/views.py:17-73 | on products and collections a write is allowed iff the caller is a logged-in staff user; reads need nothing |
| Views.OwnedWritesNeedOwnerOrStaff | api/views.py:35-52 | on reviews and orders reads are open, create needs a login, update and destroy need a login and the owner or staff |
| Views.FavoritesNeedLogin | api/views.py:80 | every favourites action is allowed iff the caller is logged in; otherwise 401 |
| Views.GetPermissions | api/views.py:23-80 | defines the permission classes of each viewset and action: IsAuthenticated and IsAdminUser for catalogue writes, IsAuthenticated and IsOwnerOrAdmin for review and order writes, IsAuthenticated for every favourites action, none otherwise |
| Views.Access | api/views.py:23-80 | defines the access decision: the view permissions, then on a detail route the object permissions |
| Views.OrderQueryset | api/views.py:54-57 | staff see every order, a user exactly their own; an anonymous caller makes the query fail |
| Views.FavoriteQueryset | api/views.py:82-83 | the visible favourites are exactly the caller's own rows |
| Views.Detail | api/views.py:17-38 | defines a detail route: permissions, then 404 outside the queryset, then object permissions |
| Views.ReviewDetail | api/views.py:29-38 | defines the review detail route over all reviews, the author being the owner |
| Views.OrderDetail | api/views.py:49-57 | defines the order detail route, whose lookup goes through the caller-scoped queryset |
| Views.FavoriteDetail | api/views.py:80-88 | defines the favourite detail routes: the scoped queryset, and for destroy the lookup on (caller, id) |
| Views.OrderOfAnotherUserIsNotFound | api/views.py:49-57 | an order detail route never answers 403: a non-staff user gets 404 on someone else's order or a missing one, the owner or staff get through, an anonymous caller gets 401 on writes |
| Views.ReviewWriteDecision | api/views.py:29-38 | a review write answers 401 anonymous, else 404 missing, else 403 for neither author nor staff, else passes |
| Views.CatalogWriteDecision | api/views.py:17-73 | a product or collection write answers 401/403 for a non-staff caller before the lookup, then 404 for a missing row |
| Views.FavoriteDetailIsScoped | api/views.py:80-88 | every favourite detail route, destroy included, lets through exactly the owner of the id; any other logged-in user gets 404 |
| Views.FavoriteList | api/views.py:80-83 | the favourites list needs a login and returns exactly the caller's rows |
| Validation.ProductsOf | api/serializers.py:103 | the product ids of the positions, position by position |
| Validation.ElementsAtMost | api/serializers.py:103-104 | that set is never larger than the list |
| Validation.NoDuplicatesIffDistinct | api/serializers.py:103-104 | the cardinality test accepts a list iff no id occurs twice |
| Validation.CheckPositions | api/serializers.py:38-41 | positions pass iff every product id resolves and every amount is at least 1; otherwise the first bad entry's reason |
| Validation.CheckProducts | api/serializers.py:48 | a products_list passes iff every id resolves |
| Validation.ValidateOrderCreate | api/serializers.py:95-105 | an order create passes iff the positions are well formed, non-empty and name no product twice; empty gives NoProducts, a repeat DuplicateProducts |
| Validation.CheckAllowedFields | api/serializers.py:114-120 | a payload passes iff its keys are within the whitelist; otherwise the error names the whitelist |
| Validation.ValidateOrderUpdate | api/serializers.py:114-120 | an order update passes iff its positions are well formed and it carries status only for staff |
| Validation.ValidateReviewCreate | api/serializers.py:63-70 | a review create passes iff the product resolves, the rating is 1..5 and the caller has not reviewed the product |
| Validation.ValidateReviewUpdate | api/serializers.py:71-75 | a review update passes iff it touches only rating and text (with a valid rating) |
| Validation.ValidateCollectionCreate | api/serializers.py:176-186 | a collection create passes iff the ids resolve, the list is non-empty and no id repeats |
| Validation.ValidateCollectionUpdate | api/serializers.py:176-188 | a collection update passes iff its ids resolve; empty and repeated lists pass |
| Validation.ValidateFavorite | api/serializers.py:228-234 | a favourite passes iff the product resolves and is not yet among the caller's favourites |
| OrderLines.NewLines | api/serializers.py:129-136 | the bulk insert takes one id per position |
| OrderLines.NewLinesAt | api/serializers.py:129-136 | line base+i of the block is position i, pointing at the new order |
| OrderLines.NewLinesBlock | api/serializers.py:129-138 | after the insert the whole block is present and unchanged |
| OrderLines.UpsertOne | api/serializers.py:147-154 | defines one turn of the update loop: overwrite the amount of the line for (order, product), or create one under the next id |
| OrderLines.Upsert | api/serializers.py:145-154 | defines the whole update loop over the payload, in order |
| OrderLines.CreatedLinesAreThePositions | api/serializers.py:124-139 | a new order owns exactly the inserted lines, one per position, and no other |
| OrderLines.UpsertOneAt | api/serializers.py:149-151 | when the order has a line for the product, one turn overwrites exactly that line's amount |
| OrderLines.UpsertOneFrame | api/serializers.py:146-154 | one turn keeps ids, orders and products of every line, touches only the (order, product) line, inserts at most that line, and keeps lines unique |
| OrderLines.UpsertFrame | api/serializers.py:145-154 | the loop removes no line, changes only this order's lines for payload products, adds only such lines under fresh ids, and leaves at most one line per (order, product) |
| OrderLines.UpsertAmounts | api/serializers.py:145-154 | after the loop the order has a line for every payload product, carrying the amount of the last position naming it |
| OrderLines.UpsertKeepsRows | api/serializers.py:145-154 | the loop keeps amounts at least 1 and references to orders and products valid |
| Pricing.PositionsTotalNonNegative | api/serializers.py:107-109 | with non-negative prices and amounts of at least 1 the create total is non-negative |
| Pricing.PositionsTotal | api/serializers.py:107-109 | defines the create total: price times amount summed over the positions |
| Pricing.SumLines | api/serializers.py:157-159 | defines the update total: price times amount summed over a set of lines |
| Pricing.SumLinesPick | api/serializers.py:158-159 | the total over a set of lines does not depend on the order it is summed in |
| Pricing.SumLinesNonNegative | api/serializers.py:157-162 | a recomputed order_sum is non-negative |
| Pricing.SumNewLines | api/serializers.py:107-138 | the total over an inserted block is the create total of its positions |
| Pricing.CreatedOrderTotal | api/serializers.py:107-139 | a new order's create total equals the total an update would recompute from its lines |
| Pricing.OrderTotal | api/serializers.py:157-159 | the re-pricing loop returns price times amount summed over every line of the order |
| Memberships.NotYetMembers | api/serializers.py:206-208 | the pre-filter keeps exactly the ids that are not members yet |
| Memberships.AddOne | api/serializers.py:196-212 | defines add() of one product: a new row under the next id unless it is already a member |
| Memberships.AddAll | api/serializers.py:196-212 | defines add() of a list of products, in order |
| Memberships.AddOneFrame | api/serializers.py:196 | one add keeps every row, adds at most one fresh row of this collection, keeps membership unique |
| Memberships.AddAllFrame | api/serializers.py:196-211 | adding a list removes nothing, adds rows only for this collection and listed products under fresh ids, never a second row for a pair |
| Memberships.AddAllMembers | api/serializers.py:196-211 | after adding, the collection's products are the old ones plus the listed ones; other collections are unchanged |
| Memberships.PrefilterIsRedundant | api/serializers.py:206-211 | adding only the not-yet-members adds exactly what adding the whole list adds |
| Memberships.AddAllKeepsReferences | api/serializers.py:196-211 | the added rows refer to the collection and to known products |
| Store.PlacedLinesRows | api/serializers.py:129-138 | the inserted lines refer to the new order and known products and carry amounts of at least 1 |
| Store.PlacedLinesUnique | api/serializers.py:98-138 | with distinct products, lines stay unique per (order, product) after the insert |
| Store.PlacedLinesValid | api/serializers.py:124-139 | the lines after the insert are valid against the orders including the new one |
| Store.OrdersAndLinesValid | api/models.py:82-115 | new orders within their bounds and lines valid against them keep the store valid |
| Store.Placed | api/serializers.py:124-139 | defines the tables after an order create: the order under the next id and its lines under the ids after it |
| Store.PlaceOrderValid | api/serializers.py:124-139 | placing an order and its lines keeps the store valid |
| Store.PlacedOrderTotal | api/serializers.py:107-139 | a placed order owns exactly one line per position, and its order_sum is the sum over those lines |
| Store.UpsertedOrderValid | api/serializers.py:141-164 | the upsert plus the re-priced order keep the store valid |
| Store.MembersAddedValid | api/serializers.py:191-216 | adding products to a collection keeps the store valid |
| Store.NewCollectionMembers | api/serializers.py:191-199 | a new collection holds exactly the listed products |
| Store.AddReviewValid | api/serializers.py:63-70 | a review that passed validation keeps one review per (user, product) and the store valid |
| Store.AddFavoriteValid | api/serializers.py:228-238 | a favourite that passed validation keeps one favourite per (user, product) and the store valid |
| Store.Shop.constructor | api/models.py:28-133 | the empty store is valid |
| Store.Shop.CreateProduct | api/views.py:23-26 | staff only, price at least 0; the product is added under the next id and nothing else changes |
| Store.Shop.UpdateProduct | api/views.py:23-26 | staff only, 404 for a missing product, price at least 0; only the supplied fields change |
| Store.Shop.DestroyProduct | api/views.py:23-26 | staff only, 404 for a missing product; the store becomes the product cascade of the old one |
| Store.Shop.CreateReview | api/serializers.py:63-70 | login needed; the review create validation decides; the new review's author is the caller |
| Store.Shop.UpdateReview | api/serializers.py:71-75 | the review detail decision, then the whitelist; only rating and text change |
| Store.Shop.DestroyReview | api/views.py:35-38 | the review detail decision; only that review is removed |
| Store.Shop.CreateCollection | api/serializers.py:176-199 | staff only, then the create validation; the collection gets exactly the listed products |
| Store.Shop.UpdateCollection | api/serializers.py:201-216 | staff only, 404, field rule; title and text replaced when given; members become the old ones plus the listed ones, none twice, and other collections are unchanged |
| Store.Shop.DestroyCollection | api/views.py:70-73 | staff only, 404 for a missing collection; the store becomes the collection cascade of the old one |
| Store.Shop.CreateFavorite | api/serializers.py:228-238 | login needed; the favourite validation decides; the new favourite belongs to the caller |
| Store.Shop.DestroyFavorite | api/views.py:85-88 | only a favourite of the caller with that id is removed; otherwise 404 (401 when anonymous) and nothing changes |
| Store.Shop.CreateOrder | api/serializers.py:95-139 | login needed, then the create validation; the order belongs to the caller, carries the create total, starts NEW unless a status is given, and its lines are the positions |
| Store.Shop.PlaceOrder | api/serializers.py:124-139 | the write half of a create: the order row under the next id, one line per position under the ids after it, the counter past them, the store still valid |
| Store.Shop.UpdateOrder | api/serializers.py:141-164 | the order detail decision, the field rules and whitelist; lines become the upsert of the old lines, the status changes only when given, order_sum is recomputed over all the order's lines, and no line is lost |
| Store.Shop.UpsertPositions | api/serializers.py:145-154 | the loop leaves exactly the lines and counter of the upsert function |
| Store.Shop.DestroyOrder | api/views.py:49-57 | the order detail decision; the store becomes the order cascade of the old one |

## Left out

- Django's ORM, the REST framework's serializer machinery, HTTP routing, token authentication and pagination. Tables are maps and the caller is an explicit parameter.
- `transaction.atomic` and concurrent requests. Every request runs all its checks before any change, so a refused request changes nothing.
- Floating-point prices and `round(..., 2)`. Money is integer cents.
- api/permissions.py is not part of this model. `IsOwnerOrAdmin` is taken to allow every request at view level, and the owner or a staff user at object level.
- api/filters.py (declarative lookups done by the library). One apparent slip there: the `updated_at` filter targets `created_at` (api/filters.py:28).
- api/admin.py and the migration, which repeats the model declarations.
- Read requests other than the order and favourite scoping: product, review and collection lists and retrieves are open and change nothing.
- Deleting a user, which would cascade to their favourites. Users live outside the store.
- Updating a favourite. The viewset allows it, but only the create and destroy rules are modelled.
- Error payloads: the framework reports every field error of a request at once (for instance an unknown product together with a rating of 9); the model reports one reason, the first check that fails.
- PUT (full update) requests. Only PATCH is modelled. A review PUT can never pass, because `product` is required there and then refused by the whitelist.
- Text fields: the required, non-blank and length rules of `Product.name` and `Product.description`, `ProductReview.text`, `Collection.title` and `Collection.text` (api/models.py:41-42, 61, 99-100). The model accepts any string there, including the empty one the source refuses with a 400.
- The framework's assertion on a supplied empty nested list in an update. `if positions:` and `if products_list:` treat the empty list as absent.
- Store.Shop.UpdateProduct: does not re-price existing orders. The source does not either; their order_sum keeps the prices they were created or last updated with.
- Store.Shop.CreateOrder: one id counter is shared by all tables, where the database keeps one sequence per table. Only the freshness of ids matters to the rules.
- Memberships.AddAll: the ids of the new membership rows follow payload order. The database's own order of the bulk insert in `add()` is not modelled.
