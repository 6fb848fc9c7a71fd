/** The shop's records, the store as maps from id to record, the field bounds
    the models declare, and the cascade deletes their foreign keys imply. */
module Models {

  type Id = nat
  type UserId = nat
  /** A calendar day (the models use DateField). */
  type Date = int
  /** Money in hundredths, so that rounding to two places is exact. */
  type Cents = int

  datatype Status = New | InProgress | Done

  /** An order that does not name its status starts as NEW. */
  const DefaultStatus: Status := New

  datatype Product = Product(name: string, description: string, price: Cents,
                             createdAt: Date, updatedAt: Date)
  datatype Review = Review(user: UserId, product: Id, text: string, rating: int,
                           createdAt: Date, updatedAt: Date)
  datatype Order = Order(user: UserId, status: Status, orderSum: Cents,
                         createdAt: Date, updatedAt: Date)
  /** A row of the order/product join table (ProductOrder), a "position". */
  datatype OrderLine = OrderLine(product: Id, order: Id, amount: int)
  datatype Collection = Collection(title: string, text: string, createdAt: Date, updatedAt: Date)
  /** A row of the collection/product join table (ProductCollection). */
  datatype Membership = Membership(product: Id, collection: Id)
  datatype Favorite = Favorite(product: Id, user: UserId)

  /** Every table of the store. Users live outside it: callers are given by id. */
  datatype Db = Db(products: map<Id, Product>,
                   reviews: map<Id, Review>,
                   orders: map<Id, Order>,
                   lines: map<Id, OrderLine>,
                   collections: map<Id, Collection>,
                   memberships: map<Id, Membership>,
                   favorites: map<Id, Favorite>)

  const EmptyDb := Db(map[], map[], map[], map[], map[], map[], map[])

  // Field bounds declared by the validators of the models.

  predicate PriceValid(price: Cents) { price >= 0 }
  predicate RatingValid(rating: int) { 1 <= rating <= 5 }
  predicate AmountValid(amount: int) { amount >= 1 }
  predicate OrderSumValid(sum: Cents) { sum >= 0 }

  /** The ids lo, lo + 1, ..., lo + n - 1. */
  function IdRange(lo: Id, n: nat): (ids: set<Id>)
    ensures forall k :: k in ids <==> lo <= k < lo + n
    decreases n
  {
    if n == 0 then {} else {lo} + IdRange(lo + 1, n - 1)
  }

  // Uniqueness that the serializers enforce at write time.

  /** At most one line per (order, product). */
  ghost predicate UniqueLines(lines: map<Id, OrderLine>) {
    forall a, b :: a in lines && b in lines && lines[a].order == lines[b].order &&
                   lines[a].product == lines[b].product
                   ==> a == b
  }

  /** At most one membership per (collection, product). */
  ghost predicate UniqueMembers(ms: map<Id, Membership>) {
    forall a, b :: a in ms && b in ms && ms[a].collection == ms[b].collection &&
                   ms[a].product == ms[b].product
                   ==> a == b
  }

  /** At most one review per (user, product). */
  ghost predicate UniqueReviews(reviews: map<Id, Review>) {
    forall a, b :: a in reviews && b in reviews && reviews[a].user == reviews[b].user &&
                   reviews[a].product == reviews[b].product
                   ==> a == b
  }

  /** A user favourites a product at most once. */
  ghost predicate UniqueFavorites(favorites: map<Id, Favorite>) {
    forall a, b :: a in favorites && b in favorites && favorites[a].user == favorites[b].user &&
                   favorites[a].product == favorites[b].product
                   ==> a == b
  }

  // Per-table invariants: bounds, references, uniqueness, and the two
  // timestamps that are both stamped only at creation.

  ghost predicate ProductsValid(products: map<Id, Product>) {
    forall k :: k in products ==>
      PriceValid(products[k].price) && products[k].updatedAt == products[k].createdAt
  }

  ghost predicate ReviewsValid(reviews: map<Id, Review>, products: map<Id, Product>) {
    && (forall k :: k in reviews ==>
          RatingValid(reviews[k].rating) && reviews[k].product in products &&
          reviews[k].updatedAt == reviews[k].createdAt)
    && UniqueReviews(reviews)
  }

  ghost predicate OrdersValid(orders: map<Id, Order>) {
    forall k :: k in orders ==>
      OrderSumValid(orders[k].orderSum) && orders[k].updatedAt == orders[k].createdAt
  }

  ghost predicate LinesValid(lines: map<Id, OrderLine>, orders: map<Id, Order>, products: map<Id, Product>) {
    && (forall k :: k in lines ==>
          AmountValid(lines[k].amount) && lines[k].order in orders && lines[k].product in products)
    && UniqueLines(lines)
  }

  ghost predicate CollectionsValid(collections: map<Id, Collection>) {
    forall k :: k in collections ==> collections[k].updatedAt == collections[k].createdAt
  }

  ghost predicate MembershipsValid(ms: map<Id, Membership>, collections: map<Id, Collection>,
                                   products: map<Id, Product>) {
    && (forall k :: k in ms ==> ms[k].collection in collections && ms[k].product in products)
    && UniqueMembers(ms)
  }

  ghost predicate FavoritesValid(favorites: map<Id, Favorite>, products: map<Id, Product>) {
    && (forall k :: k in favorites ==> favorites[k].product in products)
    && UniqueFavorites(favorites)
  }

  /** The data invariants of the store. */
  ghost predicate Valid(db: Db) {
    && ProductsValid(db.products)
    && ReviewsValid(db.reviews, db.products)
    && OrdersValid(db.orders)
    && LinesValid(db.lines, db.orders, db.products)
    && CollectionsValid(db.collections)
    && MembershipsValid(db.memberships, db.collections, db.products)
    && FavoritesValid(db.favorites, db.products)
  }

  /** Every id in use is below `next`, so `next` is free in every table. */
  ghost predicate IdsBelow(db: Db, next: Id) {
    && (forall k :: k in db.products ==> k < next)
    && (forall k :: k in db.reviews ==> k < next)
    && (forall k :: k in db.orders ==> k < next)
    && (forall k :: k in db.lines ==> k < next)
    && (forall k :: k in db.collections ==> k < next)
    && (forall k :: k in db.memberships ==> k < next)
    && (forall k :: k in db.favorites ==> k < next)
  }

  // Cascade deletes (on_delete=CASCADE on every foreign key to the row).

  /** Deleting a product deletes its reviews, order lines, collection
      memberships and favourites; orders and collections stay. */
  function DeleteProduct(db: Db, pid: Id): (r: Db)
    ensures pid !in r.products && r.products.Keys == db.products.Keys - {pid}
    ensures forall k :: k in r.reviews <==> k in db.reviews && db.reviews[k].product != pid
    ensures forall k :: k in r.lines <==> k in db.lines && db.lines[k].product != pid
    ensures forall k :: k in r.memberships <==> k in db.memberships && db.memberships[k].product != pid
    ensures forall k :: k in r.favorites <==> k in db.favorites && db.favorites[k].product != pid
    ensures r.orders == db.orders && r.collections == db.collections
    ensures Kept(r, db)
  {
    db.(products := db.products - {pid},
        reviews := map k | k in db.reviews && db.reviews[k].product != pid :: db.reviews[k],
        lines := map k | k in db.lines && db.lines[k].product != pid :: db.lines[k],
        memberships := map k | k in db.memberships && db.memberships[k].product != pid :: db.memberships[k],
        favorites := map k | k in db.favorites && db.favorites[k].product != pid :: db.favorites[k])
  }

  /** Deleting an order deletes its lines. */
  function DeleteOrder(db: Db, oid: Id): (r: Db)
    ensures r.orders.Keys == db.orders.Keys - {oid}
    ensures forall k :: k in r.lines <==> k in db.lines && db.lines[k].order != oid
    ensures r.products == db.products && r.reviews == db.reviews && r.collections == db.collections
    ensures r.memberships == db.memberships && r.favorites == db.favorites
    ensures Kept(r, db)
  {
    db.(orders := db.orders - {oid},
        lines := map k | k in db.lines && db.lines[k].order != oid :: db.lines[k])
  }

  /** Deleting a collection deletes its memberships. */
  function DeleteCollection(db: Db, cid: Id): (r: Db)
    ensures r.collections.Keys == db.collections.Keys - {cid}
    ensures forall k :: k in r.memberships <==> k in db.memberships && db.memberships[k].collection != cid
    ensures r.products == db.products && r.reviews == db.reviews && r.orders == db.orders
    ensures r.lines == db.lines && r.favorites == db.favorites
    ensures Kept(r, db)
  {
    db.(collections := db.collections - {cid},
        memberships := map k | k in db.memberships && db.memberships[k].collection != cid :: db.memberships[k])
  }

  /** Every row of `r` is an unchanged row of `db`: a delete only removes. */
  ghost predicate Kept(r: Db, db: Db) {
    && (forall k :: k in r.products ==> k in db.products && r.products[k] == db.products[k])
    && (forall k :: k in r.reviews ==> k in db.reviews && r.reviews[k] == db.reviews[k])
    && (forall k :: k in r.orders ==> k in db.orders && r.orders[k] == db.orders[k])
    && (forall k :: k in r.lines ==> k in db.lines && r.lines[k] == db.lines[k])
    && (forall k :: k in r.collections ==> k in db.collections && r.collections[k] == db.collections[k])
    && (forall k :: k in r.memberships ==> k in db.memberships && r.memberships[k] == db.memberships[k])
    && (forall k :: k in r.favorites ==> k in db.favorites && r.favorites[k] == db.favorites[k])
  }

  /** Removing rows keeps every bound and uniqueness invariant; references
      stay valid provided no surviving row points at a removed one. */
  lemma KeptValid(r: Db, db: Db)
    requires Valid(db) && Kept(r, db)
    requires forall k :: k in r.reviews ==> r.reviews[k].product in r.products
    requires forall k :: k in r.lines ==> r.lines[k].order in r.orders && r.lines[k].product in r.products
    requires forall k :: k in r.memberships ==>
               r.memberships[k].collection in r.collections && r.memberships[k].product in r.products
    requires forall k :: k in r.favorites ==> r.favorites[k].product in r.products
    ensures Valid(r)
  {
    forall a, b | a in r.lines && b in r.lines && r.lines[a].order == r.lines[b].order &&
                  r.lines[a].product == r.lines[b].product
      ensures a == b
    {
      assert db.lines[a] == r.lines[a] && db.lines[b] == r.lines[b];
    }
    forall a, b | a in r.memberships && b in r.memberships &&
                  r.memberships[a].collection == r.memberships[b].collection &&
                  r.memberships[a].product == r.memberships[b].product
      ensures a == b
    {
      assert db.memberships[a] == r.memberships[a] && db.memberships[b] == r.memberships[b];
    }
    forall a, b | a in r.reviews && b in r.reviews && r.reviews[a].user == r.reviews[b].user &&
                  r.reviews[a].product == r.reviews[b].product
      ensures a == b
    {
      assert db.reviews[a] == r.reviews[a] && db.reviews[b] == r.reviews[b];
    }
    forall a, b | a in r.favorites && b in r.favorites && r.favorites[a].user == r.favorites[b].user &&
                  r.favorites[a].product == r.favorites[b].product
      ensures a == b
    {
      assert db.favorites[a] == r.favorites[a] && db.favorites[b] == r.favorites[b];
    }
  }

  /** The product cascade leaves a valid store: no dangling reference remains. */
  lemma DeleteProductValid(db: Db, pid: Id)
    requires Valid(db)
    ensures Valid(DeleteProduct(db, pid))
  {
    KeptValid(DeleteProduct(db, pid), db);
  }

  /** The order cascade leaves a valid store. */
  lemma DeleteOrderValid(db: Db, oid: Id)
    requires Valid(db)
    ensures Valid(DeleteOrder(db, oid))
  {
    KeptValid(DeleteOrder(db, oid), db);
  }

  /** The collection cascade leaves a valid store. */
  lemma DeleteCollectionValid(db: Db, cid: Id)
    requires Valid(db)
    ensures Valid(DeleteCollection(db, cid))
  {
    KeptValid(DeleteCollection(db, cid), db);
  }
}
