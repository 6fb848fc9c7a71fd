/** The shop's store and its write requests. Each request runs the view's
    access checks, then the serializer's field rules and validate(), and
    only then changes the tables; a refused request changes nothing. */
module Store {
  import opened Outcomes
  import opened Models
  import opened Views
  import opened Validation
  import opened OrderLines
  import opened Pricing
  import opened Memberships

  /** The writable fields of a product update. */
  datatype ProductAttrs = ProductAttrs(name: Option<string>, description: Option<string>, price: Option<Cents>)

  function PatchProduct(p: Product, attrs: ProductAttrs): Product {
    p.(name := if attrs.name.Some? then attrs.name.value else p.name,
       description := if attrs.description.Some? then attrs.description.value else p.description,
       price := if attrs.price.Some? then attrs.price.value else p.price)
  }

  function PatchReview(r: Review, attrs: ReviewAttrs): Review {
    r.(text := if attrs.text.Some? then attrs.text.value else r.text,
       rating := if attrs.rating.Some? then attrs.rating.value else r.rating)
  }

  function PatchCollection(c: Collection, attrs: CollectionAttrs): Collection {
    c.(title := if attrs.title.Some? then attrs.title.value else c.title,
       text := if attrs.text.Some? then attrs.text.value else c.text)
  }

  /** The status a new order starts with. */
  function InitialStatus(status: Option<Status>): Status {
    if status.Some? then status.value else DefaultStatus
  }

  /** The positions an order update applies: `if positions:` skips an absent or empty list. */
  function UpdatedPositions(attrs: OrderAttrs): seq<Position> {
    if attrs.positions.Some? then attrs.positions.value else []
  }

  /** The products a collection update adds, under the same `if products_list:` test. */
  function UpdatedMembers(attrs: CollectionAttrs): seq<Id> {
    if attrs.products.Some? then attrs.products.value else []
  }

  // Invariant preservation, on values.

  /** After the bulk insert every line refers to an order and a known
      product and carries an amount of at least 1. */
  lemma PlacedLinesRows(lines: map<Id, OrderLine>, orders: map<Id, Order>, products: map<Id, Product>,
                        ps: seq<Position>, oid: Id, o: Order, all: map<Id, OrderLine>)
    requires forall k :: k in lines ==>
               AmountValid(lines[k].amount) && lines[k].order in orders && lines[k].product in products
    requires forall i :: 0 <= i < |ps| ==> PositionValid(ps[i], products)
    requires all == lines + NewLines(ps, oid, oid + 1)
    ensures forall k :: k in all ==>
              AmountValid(all[k].amount) && all[k].order in orders[oid := o] && all[k].product in products
  {
    var block := NewLines(ps, oid, oid + 1);
    forall k | k in all
      ensures AmountValid(all[k].amount) && all[k].order in orders[oid := o] && all[k].product in products
    {
      if k in block {
        NewLinesAt(ps, oid, oid + 1, k);
        assert PositionValid(ps[k - (oid + 1)], products);
      } else {
        assert all[k] == lines[k];
      }
    }
  }

  /** The lines of a new order name each product once, and no older line
      belongs to the new order, so lines stay unique per (order, product). */
  lemma PlacedLinesUnique(lines: map<Id, OrderLine>, ps: seq<Position>, oid: Id)
    requires UniqueLines(lines)
    requires forall k :: k in lines ==> lines[k].order != oid
    requires Distinct(ProductsOf(ps))
    ensures UniqueLines(lines + NewLines(ps, oid, oid + 1))
  {
    var block := NewLines(ps, oid, oid + 1);
    var all := lines + block;
    forall a, b | a in all && b in all && all[a].order == all[b].order && all[a].product == all[b].product
      ensures a == b
    {
      if a in block && b in block {
        NewLinesAt(ps, oid, oid + 1, a);
        NewLinesAt(ps, oid, oid + 1, b);
        var ids := ProductsOf(ps);
        assert ids[a - (oid + 1)] == ids[b - (oid + 1)];
      } else if a in block {
        NewLinesAt(ps, oid, oid + 1, a);
      } else if b in block {
        NewLinesAt(ps, oid, oid + 1, b);
      } else {
        assert all[a] == lines[a] && all[b] == lines[b];
      }
    }
  }

  /** The new ids stop below the counter's next value. */
  lemma PlacedLinesFresh(lines: map<Id, OrderLine>, ps: seq<Position>, oid: Id, all: map<Id, OrderLine>)
    requires forall k :: k in lines ==> k < oid
    requires all == lines + NewLines(ps, oid, oid + 1)
    ensures forall k :: k in all ==> k < oid + 1 + |ps|
  {
  }

  /** The lines after a bulk insert for a new order are valid against the orders including it. */
  lemma PlacedLinesValid(lines: map<Id, OrderLine>, orders: map<Id, Order>, products: map<Id, Product>,
                         ps: seq<Position>, oid: Id, o: Order)
    requires LinesValid(lines, orders, products)
    requires forall k :: k in orders ==> k < oid
    requires forall i :: 0 <= i < |ps| ==> PositionValid(ps[i], products)
    requires Distinct(ProductsOf(ps))
    ensures LinesValid(lines + NewLines(ps, oid, oid + 1), orders[oid := o], products)
  {
    PlacedLinesRows(lines, orders, products, ps, oid, o, lines + NewLines(ps, oid, oid + 1));
    assert forall k :: k in lines ==> lines[k].order != oid by {
      assert forall k :: k in lines ==> lines[k].order in orders;
    }
    PlacedLinesUnique(lines, ps, oid);
  }

  /** Replacing the orders and lines keeps the store valid when the new
      orders satisfy their bounds and the new lines are valid against them,
      and no order an older row refers to disappears. */
  lemma OrdersAndLinesValid(db: Db, orders: map<Id, Order>, lines: map<Id, OrderLine>)
    requires Models.Valid(db)
    requires db.orders.Keys <= orders.Keys
    requires OrdersValid(orders) && LinesValid(lines, orders, db.products)
    ensures Models.Valid(db.(orders := orders, lines := lines))
  {
  }

  /** Ids stay below a counter that only grows. */
  lemma OrdersAndLinesBelow(db: Db, next: Id, orders: map<Id, Order>, lines: map<Id, OrderLine>, next': Id)
    requires IdsBelow(db, next) && next <= next'
    requires forall k :: k in orders ==> k < next'
    requires forall k :: k in lines ==> k < next'
    ensures IdsBelow(db.(orders := orders, lines := lines), next')
  {
  }

  /** The tables after an order create: the order under id `next`, its
      lines under the ids after it. */
  function Placed(db: Db, next: Id, o: Order, ps: seq<Position>): Db {
    db.(orders := db.orders[next := o], lines := db.lines + NewLines(ps, next, next + 1))
  }

  /** Placing an order keeps the store valid. */
  /** PlaceOrderValid, stated on Placed. */
  lemma PlacedValid(db: Db, next: Id, ps: seq<Position>, o: Order)
    requires Models.Valid(db) && IdsBelow(db, next)
    requires forall i :: 0 <= i < |ps| ==> PositionValid(ps[i], db.products)
    requires Distinct(ProductsOf(ps))
    requires OrderSumValid(o.orderSum) && o.updatedAt == o.createdAt
    ensures Models.Valid(Placed(db, next, o, ps)) && IdsBelow(Placed(db, next, o, ps), next + 1 + |ps|)
  {
    PlaceOrderValid(db, next, ps, o);
  }

  lemma PlaceOrderValid(db: Db, next: Id, ps: seq<Position>, o: Order)
    requires Models.Valid(db) && IdsBelow(db, next)
    requires forall i :: 0 <= i < |ps| ==> PositionValid(ps[i], db.products)
    requires Distinct(ProductsOf(ps))
    requires OrderSumValid(o.orderSum) && o.updatedAt == o.createdAt
    ensures var r := db.(orders := db.orders[next := o], lines := db.lines + NewLines(ps, next, next + 1));
      Models.Valid(r) && IdsBelow(r, next + 1 + |ps|)
  {
    var orders := db.orders[next := o];
    var lines := db.lines + NewLines(ps, next, next + 1);
    PlacedLinesValid(db.lines, db.orders, db.products, ps, next, o);
    assert OrdersValid(orders);
    OrdersAndLinesValid(db, orders, lines);
    PlacedLinesFresh(db.lines, ps, next, lines);
    OrdersAndLinesBelow(db, next, orders, lines, next + 1 + |ps|);
  }

  /** A placed order owns exactly one line per position, and the total it
      was created with is the total an update would recompute from them. */
  lemma PlacedOrderTotal(db: Db, next: Id, ps: seq<Position>, o: Order)
    requires Models.Valid(db) && IdsBelow(db, next)
    requires PositionsPriced(ps, db.products) && o.orderSum == PositionsTotal(ps, db.products)
    ensures var r := Placed(db, next, o, ps);
      && LinesOf(r.lines, next) == IdRange(next + 1, |ps|)
      && LinesPriced(LinesOf(r.lines, next), r.lines, r.products)
      && r.orders[next].orderSum == SumLines(LinesOf(r.lines, next), r.lines, r.products)
  {
    assert forall k :: k in db.lines ==> k < next && db.lines[k].order != next by {
      assert forall k :: k in db.lines ==> db.lines[k].order in db.orders;
    }
    CreatedLinesAreThePositions(db.lines, ps, next);
    CreatedOrderTotal(db.lines, ps, next, db.products);
  }

  /** An update's upsert and the re-priced order keep the store valid. */
  lemma UpsertedOrderValid(db: Db, next: Id, oid: Id, ps: seq<Position>, o: Order)
    requires Models.Valid(db) && IdsBelow(db, next)
    requires oid in db.orders
    requires forall i :: 0 <= i < |ps| ==> PositionValid(ps[i], db.products)
    requires OrderSumValid(o.orderSum) && o.updatedAt == o.createdAt
    ensures var t := Upsert(LineTable(db.lines, next), oid, ps);
      var r := db.(orders := db.orders[oid := o], lines := t.lines);
      Models.Valid(r) && IdsBelow(r, t.next)
  {
    var t := LineTable(db.lines, next);
    var orders := db.orders[oid := o];
    UpsertFrame(t, oid, ps);
    UpsertKeepsRows(t, oid, ps, db.orders, db.products);
    var u := Upsert(t, oid, ps);
    OrdersAndLinesValid(db, orders, u.lines);
    OrdersAndLinesBelow(db, next, orders, u.lines, u.next);
  }

  /** Adding products to collection `cid` (new or existing) keeps the store
      valid: the rows refer to known products and to a collection that is
      there, and take ids from the counter. */
  lemma MembersAddedValid(db: Db, next: Id, collections: map<Id, Collection>, cid: Id, ids: seq<Id>)
    requires Models.Valid(db) && IdsBelow(db, next)
    requires db.collections.Keys <= collections.Keys && cid in collections
    requires CollectionsValid(collections) && forall k :: k in collections ==> k < next
    requires forall i :: 0 <= i < |ids| ==> ids[i] in db.products
    ensures var t := AddAll(MemberTable(db.memberships, next), cid, ids);
      var r := db.(collections := collections, memberships := t.ms);
      Models.Valid(r) && IdsBelow(r, t.next)
  {
    var t := MemberTable(db.memberships, next);
    AddAllFrame(t, cid, ids);
    AddAllKeepsReferences(t, cid, ids, collections, db.products);
  }

  /** A new collection holds exactly the products of its create payload:
      no older row can belong to an id the counter has not handed out. */
  lemma NewCollectionMembers(db: Db, next: Id, ids: seq<Id>)
    requires Models.Valid(db) && IdsBelow(db, next)
    ensures MembersOf(AddAll(MemberTable(db.memberships, next + 1), next, ids).ms, next) == Elements(ids)
  {
    var t := MemberTable(db.memberships, next + 1);
    AddAllMembers(t, next, ids, next);
  }

  /** A row added to a table under a fresh id keeps the store valid when it
      satisfies that table's own conditions. */
  lemma AddReviewValid(db: Db, next: Id, rv: Review)
    requires Models.Valid(db) && IdsBelow(db, next)
    requires RatingValid(rv.rating) && rv.product in db.products && rv.updatedAt == rv.createdAt
    requires !HasReview(db.reviews, rv.user, rv.product)
    ensures Models.Valid(db.(reviews := db.reviews[next := rv])) && IdsBelow(db.(reviews := db.reviews[next := rv]), next + 1)
  {
  }

  lemma AddFavoriteValid(db: Db, next: Id, f: Favorite)
    requires Models.Valid(db) && IdsBelow(db, next)
    requires f.product in db.products && f.product !in FavoriteProducts(f.user, db.favorites)
    ensures Models.Valid(db.(favorites := db.favorites[next := f])) &&
            IdsBelow(db.(favorites := db.favorites[next := f]), next + 1)
  {
  }

  /** The shop's tables, updated in place by the requests. One counter hands
      out the ids of every table, so a fresh id is free everywhere. */
  class Shop {
    var products: map<Id, Product>
    var reviews: map<Id, Review>
    var orders: map<Id, Order>
    var lines: map<Id, OrderLine>
    var collections: map<Id, Collection>
    var memberships: map<Id, Membership>
    var favorites: map<Id, Favorite>
    var nextId: Id

    function Tables(): Db
      reads this
    {
      Db(products, reviews, orders, lines, collections, memberships, favorites)
    }

    /** The data invariants hold and every id in use is below the counter. */
    ghost predicate Valid()
      reads this
    {
      Models.Valid(Tables()) && IdsBelow(Tables(), nextId)
    }

    constructor()
      ensures Tables() == EmptyDb && Valid()
    {
      products, reviews, orders, lines := map[], map[], map[], map[];
      collections, memberships, favorites := map[], map[], map[];
      nextId := 0;
    }

    // Products.

    /** POST /products/: staff only; the price must not be negative. */
    method CreateProduct(caller: Principal, name: string, description: string, price: Cents, today: Date)
      returns (r: Result<Id>)
      requires Valid()
      modifies this
      ensures Valid()
      ensures r.Success? <==> caller.User? && caller.isStaff && PriceValid(price)
      ensures r.Failure? ==>
                && r.error == (if !(caller.User? && caller.isStaff) then Denied(caller) else Invalid(NegativePrice))
                && Tables() == old(Tables()) && nextId == old(nextId)
      ensures r.Success? ==>
                && r.value == old(nextId) && r.value !in old(products)
                && Tables() == old(Tables()).(products := old(products)[r.value := Product(name, description, price, today, today)])
                && nextId == old(nextId) + 1
    {
      CatalogWritesNeedStaff(Products, Create, caller, false);
      var access := Access(Products, Create, caller, false);
      if access.Fail? {
        return Failure(access.error);
      }
      if !PriceValid(price) {
        return Failure(Invalid(NegativePrice));
      }
      var id := nextId;
      products := products[id := Product(name, description, price, today, today)];
      nextId := nextId + 1;
      r := Success(id);
    }

    /** PATCH /products/{id}/: staff only; a supplied price must not be
      negative. Orders keep the order_sum they were priced at. */
    method UpdateProduct(caller: Principal, pid: Id, attrs: ProductAttrs) returns (r: Outcome)
      requires Valid()
      modifies this
      ensures Valid()
      ensures r.Pass? <==>
                caller.User? && caller.isStaff && pid in old(products) &&
                (attrs.price.Some? ==> PriceValid(attrs.price.value))
      ensures r.Fail? ==>
                && r.error == (if !(caller.User? && caller.isStaff) then Denied(caller)
                               else if pid !in old(products) then NotFound
                               else Invalid(NegativePrice))
                && Tables() == old(Tables()) && nextId == old(nextId)
      ensures r.Pass? ==>
                Tables() == old(Tables()).(products := old(products)[pid := PatchProduct(old(products)[pid], attrs)]) &&
                nextId == old(nextId)
    {
      CatalogWriteDecision(Products, PartialUpdate, caller, pid in products);
      var access := CatalogDetail(Products, PartialUpdate, caller, pid in products);
      if access.Fail? {
        return access;
      }
      if attrs.price.Some? && !PriceValid(attrs.price.value) {
        return Fail(Invalid(NegativePrice));
      }
      products := products[pid := PatchProduct(products[pid], attrs)];
      r := Pass;
    }

    /** DELETE /products/{id}/: staff only; the cascade removes the product's
      reviews, order lines, memberships and favourites. */
    method DestroyProduct(caller: Principal, pid: Id) returns (r: Outcome)
      requires Valid()
      modifies this
      ensures Valid()
      ensures r.Pass? <==> caller.User? && caller.isStaff && pid in old(products)
      ensures r.Fail? ==>
                && r.error == (if !(caller.User? && caller.isStaff) then Denied(caller) else NotFound)
                && Tables() == old(Tables())
      ensures r.Pass? ==> Tables() == DeleteProduct(old(Tables()), pid)
      ensures nextId == old(nextId)
    {
      CatalogWriteDecision(Products, Destroy, caller, pid in products);
      var access := CatalogDetail(Products, Destroy, caller, pid in products);
      if access.Fail? {
        return access;
      }
      DeleteProductValid(Tables(), pid);
      SetTables(DeleteProduct(Tables(), pid));
      r := Pass;
    }

    // Reviews.

    /** POST /product-reviews/: a logged-in user reviews a known product at
      most once, with a rating within 1..5; the author is the caller. */
    method CreateReview(caller: Principal, product: Id, text: string, rating: int, today: Date)
      returns (r: Result<Id>)
      requires Valid()
      modifies this
      ensures Valid()
      ensures caller.Anonymous? ==> r == Failure(Unauthenticated)
      ensures caller.User? ==>
                (r.Success? <==> ValidateReviewCreate(caller.id, product, rating, old(reviews), old(products)).Pass?)
      ensures caller.User? && r.Failure? ==>
                r.error == ValidateReviewCreate(caller.id, product, rating, old(reviews), old(products)).error
      ensures r.Failure? ==> Tables() == old(Tables()) && nextId == old(nextId)
      ensures r.Success? ==>
                && caller.User? && r.value == old(nextId) && r.value !in old(reviews)
                && Tables() == old(Tables()).(reviews := old(reviews)[r.value := Review(caller.id, product, text, rating, today, today)])
                && nextId == old(nextId) + 1
    {
      OwnedWritesNeedOwnerOrStaff(ProductReviews, Create, caller, false);
      var access := Access(ProductReviews, Create, caller, false);
      if access.Fail? {
        return Failure(access.error);
      }
      var v := ValidateReviewCreate(caller.id, product, rating, reviews, products);
      if v.Fail? {
        return Failure(v.error);
      }
      var rv := Review(caller.id, product, text, rating, today, today);
      AddReviewValid(Tables(), nextId, rv);
      reviews := reviews[nextId := rv];
      r := Success(nextId);
      nextId := nextId + 1;
    }

    /** PATCH /product-reviews/{id}/: the author or staff may change the
      rating and the text, nothing else. */
    method UpdateReview(caller: Principal, rid: Id, attrs: ReviewAttrs) returns (r: Outcome)
      requires Valid()
      modifies this
      ensures Valid()
      ensures r.Pass? <==>
                ReviewDetail(caller, PartialUpdate, old(reviews), rid).Pass? && ValidateReviewUpdate(attrs, old(products)).Pass?
      ensures ReviewDetail(caller, PartialUpdate, old(reviews), rid).Fail? ==>
                r == ReviewDetail(caller, PartialUpdate, old(reviews), rid)
      ensures ReviewDetail(caller, PartialUpdate, old(reviews), rid).Pass? ==> r == ValidateReviewUpdate(attrs, old(products))
      ensures r.Fail? ==> Tables() == old(Tables())
      ensures r.Pass? ==>
                Tables() == old(Tables()).(reviews := old(reviews)[rid := PatchReview(old(reviews)[rid], attrs)])
      ensures nextId == old(nextId)
    {
      ReviewWriteDecision(caller, PartialUpdate, reviews, rid);
      var access := ReviewDetail(caller, PartialUpdate, reviews, rid);
      if access.Fail? {
        return access;
      }
      r := ValidateReviewUpdate(attrs, products);
      if r.Fail? {
        return;
      }
      reviews := reviews[rid := PatchReview(reviews[rid], attrs)];
    }

    /** DELETE /product-reviews/{id}/: the author or staff removes the review. */
    method DestroyReview(caller: Principal, rid: Id) returns (r: Outcome)
      requires Valid()
      modifies this
      ensures Valid()
      ensures r == ReviewDetail(caller, Destroy, old(reviews), rid)
      ensures r.Fail? ==> Tables() == old(Tables())
      ensures r.Pass? ==> Tables() == old(Tables()).(reviews := old(reviews) - {rid})
      ensures nextId == old(nextId)
    {
      r := ReviewDetail(caller, Destroy, reviews, rid);
      if r.Fail? {
        return;
      }
      KeptValid(Tables().(reviews := reviews - {rid}), Tables());
      SetTables(Tables().(reviews := reviews - {rid}));
    }

    // Collections.

    /** POST /collections/: staff only; a non-empty list of known products,
      none named twice. The collection is written, then its products added. */
    method CreateCollection(caller: Principal, title: string, text: string, ids: seq<Id>, today: Date)
      returns (r: Result<Id>)
      requires Valid()
      modifies this
      ensures Valid()
      ensures r.Success? <==> caller.User? && caller.isStaff && ValidateCollectionCreate(ids, old(products)).Pass?
      ensures r.Failure? ==>
                && r.error == (if !(caller.User? && caller.isStaff) then Denied(caller)
                               else ValidateCollectionCreate(ids, old(products)).error)
                && Tables() == old(Tables()) && nextId == old(nextId)
      ensures r.Success? ==>
                var t := AddAll(MemberTable(old(memberships), old(nextId) + 1), old(nextId), ids);
                && r.value == old(nextId) && nextId == t.next
                && Tables() == old(Tables()).(collections := old(collections)[r.value := Collection(title, text, today, today)],
                                              memberships := t.ms)
      ensures r.Success? ==> MembersOf(memberships, r.value) == Elements(ids)
    {
      CatalogWritesNeedStaff(Collections, Create, caller, false);
      var access := Access(Collections, Create, caller, false);
      if access.Fail? {
        return Failure(access.error);
      }
      var v := ValidateCollectionCreate(ids, products);
      if v.Fail? {
        return Failure(v.error);
      }
      var cid := nextId;
      var c := Collection(title, text, today, today);
      MembersAddedValid(Tables(), cid + 1, collections[cid := c], cid, ids);
      NewCollectionMembers(Tables(), cid, ids);
      var t := AddAll(MemberTable(memberships, cid + 1), cid, ids);
      collections := collections[cid := c];
      memberships := t.ms;
      nextId := t.next;
      r := Success(cid);
    }

    /** PATCH /collections/{id}/: staff only; title and text are replaced
      when supplied, and the listed products that are not members yet are
      added. Nothing is ever removed from a collection. */
    method UpdateCollection(caller: Principal, cid: Id, attrs: CollectionAttrs) returns (r: Outcome)
      requires Valid()
      modifies this
      ensures Valid()
      ensures r.Pass? <==>
                caller.User? && caller.isStaff && cid in old(collections) &&
                ValidateCollectionUpdate(attrs, old(products)).Pass?
      ensures r.Fail? ==>
                && r.error == (if !(caller.User? && caller.isStaff) then Denied(caller)
                               else if cid !in old(collections) then NotFound
                               else ValidateCollectionUpdate(attrs, old(products)).error)
                && Tables() == old(Tables()) && nextId == old(nextId)
      ensures r.Pass? ==>
                var t := AddAll(MemberTable(old(memberships), old(nextId)), cid, UpdatedMembers(attrs));
                && nextId == t.next
                && Tables() == old(Tables()).(collections := old(collections)[cid := PatchCollection(old(collections)[cid], attrs)],
                                              memberships := t.ms)
      ensures r.Pass? ==>
                forall c :: MembersOf(memberships, c) ==
                  if c == cid then MembersOf(old(memberships), c) + Elements(UpdatedMembers(attrs))
                  else MembersOf(old(memberships), c)
    {
      CatalogWriteDecision(Collections, PartialUpdate, caller, cid in collections);
      r := CatalogDetail(Collections, PartialUpdate, caller, cid in collections);
      if r.Fail? {
        return;
      }
      r := ValidateCollectionUpdate(attrs, products);
      if r.Fail? {
        return;
      }
      var ids := UpdatedMembers(attrs);
      ghost var t := MemberTable(memberships, nextId);
      var c := PatchCollection(collections[cid], attrs);
      MembersAddedValid(Tables(), nextId, collections[cid := c], cid, ids);
      PrefilterIsRedundant(t, memberships, cid, ids);
      forall c' ensures MembersOf(AddAll(t, cid, ids).ms, c') ==
                          if c' == cid then MembersOf(t.ms, c') + Elements(ids) else MembersOf(t.ms, c')
      {
        AddAllMembers(t, cid, ids, c');
      }
      if ids != [] {
        var added := NotYetMembers(memberships, cid, ids);
        if added != [] {
          var u := AddAll(MemberTable(memberships, nextId), cid, added);
          memberships, nextId := u.ms, u.next;
        }
      }
      collections := collections[cid := c];
    }

    /** DELETE /collections/{id}/: staff only; the cascade removes its memberships. */
    method DestroyCollection(caller: Principal, cid: Id) returns (r: Outcome)
      requires Valid()
      modifies this
      ensures Valid()
      ensures r.Pass? <==> caller.User? && caller.isStaff && cid in old(collections)
      ensures r.Fail? ==>
                && r.error == (if !(caller.User? && caller.isStaff) then Denied(caller) else NotFound)
                && Tables() == old(Tables())
      ensures r.Pass? ==> Tables() == DeleteCollection(old(Tables()), cid)
      ensures nextId == old(nextId)
    {
      CatalogWriteDecision(Collections, Destroy, caller, cid in collections);
      r := CatalogDetail(Collections, Destroy, caller, cid in collections);
      if r.Fail? {
        return;
      }
      DeleteCollectionValid(Tables(), cid);
      SetTables(DeleteCollection(Tables(), cid));
    }

    // Favourites.

    /** POST /favorites/: a logged-in user stars a known product that is
      not yet among their favourites; the owner is the caller. */
    method CreateFavorite(caller: Principal, product: Id) returns (r: Result<Id>)
      requires Valid()
      modifies this
      ensures Valid()
      ensures caller.Anonymous? ==> r == Failure(Unauthenticated)
      ensures caller.User? ==>
                && (r.Success? <==> ValidateFavorite(caller.id, product, old(favorites), old(products)).Pass?)
                && (r.Failure? ==> r.error == ValidateFavorite(caller.id, product, old(favorites), old(products)).error)
      ensures r.Failure? ==> Tables() == old(Tables()) && nextId == old(nextId)
      ensures r.Success? ==>
                && caller.User? && r.value == old(nextId) && nextId == r.value + 1
                && Tables() == old(Tables()).(favorites := old(favorites)[r.value := Favorite(product, caller.id)])
    {
      FavoritesNeedLogin(Create, caller, false);
      var access := Access(Favorites, Create, caller, false);
      if access.Fail? {
        return Failure(access.error);
      }
      var v := ValidateFavorite(caller.id, product, favorites, products);
      if v.Fail? {
        return Failure(v.error);
      }
      var id := nextId;
      AddFavoriteValid(Tables(), id, Favorite(product, caller.id));
      favorites := favorites[id := Favorite(product, caller.id)];
      nextId := id + 1;
      r := Success(id);
    }

    /** DELETE /favorites/{id}/: only a row of the caller's own favourites
      can be removed; any other id is 404. */
    method DestroyFavorite(caller: Principal, fid: Id) returns (r: Outcome)
      requires Valid()
      modifies this
      ensures Valid()
      ensures r == FavoriteDetail(caller, Destroy, old(favorites), fid)
      ensures r.Fail? ==> Tables() == old(Tables())
      ensures r.Pass? ==> Tables() == old(Tables()).(favorites := old(favorites) - {fid})
      ensures nextId == old(nextId)
    {
      r := FavoriteDetail(caller, Destroy, favorites, fid);
      if r.Fail? {
        return;
      }
      KeptValid(Tables().(favorites := favorites - {fid}), Tables());
      SetTables(Tables().(favorites := favorites - {fid}));
    }

    // Orders.

    /** POST /orders/: a logged-in caller places an order with its positions.
        The order is written with the create total of the positions, then
        one line per position. */
    method CreateOrder(caller: Principal, ps: seq<Position>, status: Option<Status>, today: Date)
      returns (r: Result<Id>)
      requires Valid()
      modifies this
      ensures Valid()
      ensures caller.Anonymous? ==> r == Failure(Unauthenticated)
      ensures caller.User? ==> (r.Success? <==> ValidateOrderCreate(ps, old(products)).Pass?)
      ensures caller.User? && r.Failure? ==> r.error == ValidateOrderCreate(ps, old(products)).error
      ensures r.Failure? ==> Tables() == old(Tables()) && nextId == old(nextId)
      ensures r.Success? ==>
                && caller.User? && PositionsPriced(ps, old(products))
                && r.value == old(nextId) && nextId == r.value + 1 + |ps|
                && Tables() == Placed(old(Tables()), r.value, Order(caller.id, InitialStatus(status),
                                                   PositionsTotal(ps, old(products)), today, today), ps)
    {
      OwnedWritesNeedOwnerOrStaff(Orders, Create, caller, false);
      var access := Access(Orders, Create, caller, false);
      if access.Fail? {
        return Failure(access.error);
      }
      var v := ValidateOrderCreate(ps, products);
      if v.Fail? {
        return Failure(v.error);
      }
      PositionsTotalNonNegative(ps, products);
      var oid := PlaceOrder(Order(caller.id, InitialStatus(status), PositionsTotal(ps, products), today, today), ps);
      r := Success(oid);
    }

    /** The write half of an order create: the order row under the next id,
      then one line per checked position under the ids after it. */
    method PlaceOrder(o: Order, ps: seq<Position>) returns (oid: Id)
      requires Valid()
      requires forall i :: 0 <= i < |ps| ==> PositionValid(ps[i], products)
      requires Distinct(ProductsOf(ps))
      requires OrderSumValid(o.orderSum) && o.updatedAt == o.createdAt
      modifies this
      ensures Valid()
      ensures oid == old(nextId) && nextId == oid + 1 + |ps|
      ensures Tables() == Placed(old(Tables()), oid, o, ps)
    {
      oid := nextId;
      PlacedValid(Tables(), oid, ps, o);
      SetTables(Placed(Tables(), oid, o, ps));
      nextId := oid + 1 + |ps|;
    }

    /** PATCH /orders/{id}/: the owner or staff changes the positions (and
      staff the status); the lines are upserted by product and order_sum is
      recomputed from every line the order now has, at current prices. */
    method UpdateOrder(caller: Principal, oid: Id, attrs: OrderAttrs) returns (r: Outcome)
      requires Valid()
      modifies this
      ensures Valid()
      ensures r.Pass? <==>
                && caller.User? && OrderDetail(caller, PartialUpdate, old(orders), oid).Pass?
                && ValidateOrderUpdate(attrs, caller.isStaff, old(products)).Pass?
      ensures OrderDetail(caller, PartialUpdate, old(orders), oid).Fail? ==>
                r == OrderDetail(caller, PartialUpdate, old(orders), oid)
      ensures caller.User? && OrderDetail(caller, PartialUpdate, old(orders), oid).Pass? ==>
                r == ValidateOrderUpdate(attrs, caller.isStaff, old(products))
      ensures r.Fail? ==> Tables() == old(Tables()) && nextId == old(nextId)
      ensures r.Pass? ==>
                var t := Upsert(LineTable(old(lines), old(nextId)), oid, UpdatedPositions(attrs));
                && lines == t.lines && nextId == t.next
                && LinesPriced(LinesOf(lines, oid), lines, products)
                && orders == old(orders)[oid := old(orders)[oid].(
                     status := if attrs.status.Some? then attrs.status.value else old(orders)[oid].status,
                     orderSum := SumLines(LinesOf(lines, oid), lines, products))]
                && Tables() == old(Tables()).(orders := orders, lines := lines)
      ensures r.Pass? ==>
                && (forall k :: k in old(lines) ==> k in lines)
                && (forall pid :: pid in ProductsOf(UpdatedPositions(attrs)) ==> HasLine(lines, oid, pid))
    {
      OrderOfAnotherUserIsNotFound(caller, PartialUpdate, orders, oid);
      var access := OrderDetail(caller, PartialUpdate, orders, oid);
      if access.Fail? {
        return access;
      }
      r := ValidateOrderUpdate(attrs, caller.isStaff, products);
      if r.Fail? {
        return;
      }
      ghost var db := Tables();
      ghost var t := LineTable(lines, nextId);
      var ps := UpdatedPositions(attrs);
      UpsertFrame(t, oid, ps);
      UpsertKeepsRows(t, oid, ps, orders, products);
      forall pid | pid in ProductsOf(ps) ensures HasLine(Upsert(t, oid, ps).lines, oid, pid) {
        UpsertAmounts(t, oid, ps, pid);
      }
      if ps != [] {
        UpsertPositions(oid, ps);
      }
      var sum := OrderTotal(lines, products, oid);
      SumLinesNonNegative(LinesOf(lines, oid), lines, products);
      var o := orders[oid].(status := if attrs.status.Some? then attrs.status.value else orders[oid].status,
                            orderSum := sum);
      UpsertedOrderValid(db, t.next, oid, ps, o);
      SetTables(Tables().(orders := orders[oid := o]));
    }

    /** The upsert loop of an update: for each position, overwrite the
      amount of the order's line for that product, or insert a new line. */
    method UpsertPositions(oid: Id, ps: seq<Position>)
      requires UniqueLines(lines) && forall k :: k in lines ==> k < nextId
      modifies this
      ensures LineTable(lines, nextId) == Upsert(LineTable(old(lines), old(nextId)), oid, ps)
      ensures Tables() == old(Tables()).(lines := lines)
    {
      var i := 0;
      while i < |ps|
        invariant 0 <= i <= |ps|
        invariant UniqueLines(lines) && FreshLines(LineTable(lines, nextId))
        invariant Upsert(LineTable(lines, nextId), oid, ps[i..]) == Upsert(LineTable(old(lines), old(nextId)), oid, ps)
        invariant Tables() == old(Tables()).(lines := lines)
      {
        var p := ps[i];
        ghost var t := LineTable(lines, nextId);
        UpsertOneFrame(t, oid, p);
        if HasLine(lines, oid, p.product) {
          var k :| k in lines && Matches(lines[k], oid, p.product);
          UpsertOneAt(t, oid, p, k);
          lines := lines[k := lines[k].(amount := p.amount)];
        } else {
          lines := lines[nextId := OrderLine(p.product, oid, p.amount)];
          nextId := nextId + 1;
        }
        assert LineTable(lines, nextId) == UpsertOne(t, oid, p);
        assert ps[i..][1..] == ps[i + 1..];
        i := i + 1;
      }
    }

    /** DELETE /orders/{id}/: the owner or staff removes the order and its lines. */
    method DestroyOrder(caller: Principal, oid: Id) returns (r: Outcome)
      requires Valid()
      modifies this
      ensures Valid()
      ensures r == OrderDetail(caller, Destroy, old(orders), oid)
      ensures r.Fail? ==> Tables() == old(Tables())
      ensures r.Pass? ==> Tables() == DeleteOrder(old(Tables()), oid)
      ensures nextId == old(nextId)
    {
      r := OrderDetail(caller, Destroy, orders, oid);
      if r.Fail? {
        return;
      }
      DeleteOrderValid(Tables(), oid);
      SetTables(DeleteOrder(Tables(), oid));
    }

    /** Replaces every table by the given one (the cascades). */
    method SetTables(db: Db)
      modifies this
      ensures Tables() == db && nextId == old(nextId)
    {
      products, reviews, orders, lines := db.products, db.reviews, db.orders, db.lines;
      collections, memberships, favorites := db.collections, db.memberships, db.favorites;
    }
  }
}
