/** The payloads of the write requests and the checks the serializers run on
    them: the field rules first, then each serializer's validate(). */
module Validation {
  import opened Outcomes
  import opened Models

  /** One entry of an order's `positions`: a product id and an amount. */
  datatype Position = Position(product: Id, amount: int)

  /** The product ids of a positions list, in order. */
  function ProductsOf(ps: seq<Position>): (ids: seq<Id>)
    ensures |ids| == |ps|
    ensures forall i :: 0 <= i < |ps| ==> ids[i] == ps[i].product
  {
    if ps == [] then [] else [ps[0].product] + ProductsOf(ps[1..])
  }

  /** The set comprehension the serializers build from a list of product ids. */
  function Elements(ids: seq<Id>): (s: set<Id>)
    ensures forall x :: x in s <==> x in ids
  {
    set x | x in ids
  }

  /** The serializers' duplicate test: the set of ids is as large as the list. */
  predicate NoDuplicates(ids: seq<Id>) {
    |Elements(ids)| == |ids|
  }

  ghost predicate Distinct(ids: seq<Id>) {
    forall i, j :: 0 <= i < j < |ids| ==> ids[i] != ids[j]
  }

  lemma {:induction false} ElementsAtMost(ids: seq<Id>)
    ensures |Elements(ids)| <= |ids|
  {
    if ids != [] {
      ElementsAtMost(ids[1..]);
      assert Elements(ids) == {ids[0]} + Elements(ids[1..]);
    }
  }

  /** The cardinality test accepts exactly the lists without a repeated id. */
  lemma {:induction false} NoDuplicatesIffDistinct(ids: seq<Id>)
    ensures NoDuplicates(ids) <==> Distinct(ids)
  {
    if ids != [] {
      var rest := ids[1..];
      NoDuplicatesIffDistinct(rest);
      assert Elements(ids) == {ids[0]} + Elements(rest);
      if ids[0] in rest {
        ElementsAtMost(rest);
        var j :| 0 <= j < |rest| && rest[j] == ids[0];
        assert ids[0] == ids[j + 1];
      } else {
        assert |Elements(ids)| == 1 + |Elements(rest)|;
        if Distinct(rest) {
          forall i, j | 0 <= i < j < |ids| ensures ids[i] != ids[j] {
            if i > 0 { assert ids[i] == rest[i - 1] && ids[j] == rest[j - 1]; }
          }
        } else {
          var i, j :| 0 <= i < j < |rest| && rest[i] == rest[j];
          assert ids[i + 1] == ids[j + 1];
        }
      }
    }
  }

  // Field rules DRF applies before validate().

  /** A position is well formed when its product id resolves and the
      amount is at least 1 (`IntegerField(min_value=1)`). */
  predicate PositionValid(p: Position, products: map<Id, Product>) {
    p.product in products && AmountValid(p.amount)
  }

  /** The field errors of a positions list: the first bad entry decides the reason. */
  function CheckPositions(ps: seq<Position>, products: map<Id, Product>): (r: Outcome)
    ensures r.Pass? <==> forall i :: 0 <= i < |ps| ==> PositionValid(ps[i], products)
    ensures r.Fail? ==>
              exists i :: 0 <= i < |ps| && (forall j :: 0 <= j < i ==> PositionValid(ps[j], products)) &&
                          !PositionValid(ps[i], products) &&
                          r.error == Invalid(if ps[i].product !in products then UnknownProduct else AmountBelowOne)
  {
    if ps == [] then Pass
    else if ps[0].product !in products then Fail(Invalid(UnknownProduct))
    else if !AmountValid(ps[0].amount) then Fail(Invalid(AmountBelowOne))
    else
      var rest := CheckPositions(ps[1..], products);
      assert rest.Fail? ==>
               exists i :: 0 <= i < |ps| && (forall j :: 0 <= j < i ==> PositionValid(ps[j], products)) &&
                           !PositionValid(ps[i], products) &&
                           rest.error == Invalid(if ps[i].product !in products then UnknownProduct else AmountBelowOne) by {
        if rest.Fail? {
          var i :| 0 <= i < |ps[1..]| && (forall j :: 0 <= j < i ==> PositionValid(ps[1..][j], products)) &&
                   !PositionValid(ps[1..][i], products) &&
                   rest.error == Invalid(if ps[1..][i].product !in products then UnknownProduct else AmountBelowOne);
          assert forall j :: 0 <= j < i + 1 ==> PositionValid(ps[j], products) by {
            forall j | 0 < j < i + 1 ensures PositionValid(ps[j], products) {
              assert ps[j] == ps[1..][j - 1];
            }
          }
          assert ps[i + 1] == ps[1..][i];
        }
      }
      rest
  }

  /** The field errors of a products_list: every id must resolve. */
  function CheckProducts(ids: seq<Id>, products: map<Id, Product>): (r: Outcome)
    ensures r.Pass? <==> forall i :: 0 <= i < |ids| ==> ids[i] in products
    ensures r.Fail? ==> r.error == Invalid(UnknownProduct)
  {
    if ids == [] then Pass
    else if ids[0] !in products then Fail(Invalid(UnknownProduct))
    else CheckProducts(ids[1..], products)
  }

  // Orders.

  /** Order create: well-formed positions, then a non-empty list, then no
      product named twice. */
  function ValidateOrderCreate(ps: seq<Position>, products: map<Id, Product>): (r: Outcome)
    ensures r.Pass? <==>
              && ps != []
              && (forall i :: 0 <= i < |ps| ==> PositionValid(ps[i], products))
              && Distinct(ProductsOf(ps))
    ensures ps == [] ==> r == Fail(Invalid(NoProducts))
    ensures r == Fail(Invalid(DuplicateProducts)) <==>
              && (forall i :: 0 <= i < |ps| ==> PositionValid(ps[i], products))
              && ps != [] && !Distinct(ProductsOf(ps))
  {
    NoDuplicatesIffDistinct(ProductsOf(ps));
    var fields := CheckPositions(ps, products);
    if fields.Fail? then fields
    else if ps == [] then Fail(Invalid(NoProducts))
    else if !NoDuplicates(ProductsOf(ps)) then Fail(Invalid(DuplicateProducts))
    else Pass
  }

  /** The writable fields an order update may carry. `user` and `order_sum`
      are read-only and never reach validate(). */
  datatype OrderAttrs = OrderAttrs(positions: Option<seq<Position>>, status: Option<Status>)

  function OrderAttrKeys(attrs: OrderAttrs): set<string> {
    (if attrs.positions.Some? then {"positions"} else {}) +
    (if attrs.status.Some? then {"status"} else {})
  }

  /** The whitelist of an order update: positions, and status for staff. */
  function AllowedOrderFields(isStaff: bool): set<string> {
    if isStaff then {"positions", "status"} else {"positions"}
  }

  /** The key-set difference test: any key outside the whitelist refuses the payload. */
  function CheckAllowedFields(keys: set<string>, allowed: set<string>): (r: Outcome)
    ensures r.Pass? <==> keys <= allowed
    ensures r.Fail? ==> r.error == Invalid(FieldsNotAllowed(allowed))
  {
    if keys - allowed != {} then Fail(Invalid(FieldsNotAllowed(allowed)))
    else
      assert keys <= allowed by {
        forall x | x in keys ensures x in allowed { assert x !in keys - allowed; }
      }
      Pass
  }

  /** Order update: well-formed positions, then the whitelist. */
  function ValidateOrderUpdate(attrs: OrderAttrs, isStaff: bool, products: map<Id, Product>): (r: Outcome)
    ensures r.Pass? <==>
              && (attrs.positions.Some? ==>
                    forall i :: 0 <= i < |attrs.positions.value| ==> PositionValid(attrs.positions.value[i], products))
              && (attrs.status.Some? ==> isStaff)
  {
    var fields := if attrs.positions.Some? then CheckPositions(attrs.positions.value, products) else Pass;
    if fields.Fail? then fields
    else CheckAllowedFields(OrderAttrKeys(attrs), AllowedOrderFields(isStaff))
  }

  // Reviews.

  /** True when `user` already reviewed `product`. */
  predicate HasReview(reviews: map<Id, Review>, user: UserId, product: Id) {
    exists k :: k in reviews && reviews[k].user == user && reviews[k].product == product
  }

  /** Review create: the product resolves and the rating is within 1..5,
      then the caller must not have reviewed the product yet. */
  function ValidateReviewCreate(user: UserId, product: Id, rating: int,
                                reviews: map<Id, Review>, products: map<Id, Product>): (r: Outcome)
    ensures r.Pass? <==> product in products && RatingValid(rating) && !HasReview(reviews, user, product)
    ensures product in products && RatingValid(rating) && HasReview(reviews, user, product) ==>
              r == Fail(Invalid(AlreadyReviewed))
  {
    if product !in products then Fail(Invalid(UnknownProduct))
    else if !RatingValid(rating) then Fail(Invalid(RatingOutOfRange))
    else if HasReview(reviews, user, product) then Fail(Invalid(AlreadyReviewed))
    else Pass
  }

  /** The writable fields a review update may carry (`user` is read-only). */
  datatype ReviewAttrs = ReviewAttrs(product: Option<Id>, text: Option<string>, rating: Option<int>)

  function ReviewAttrKeys(attrs: ReviewAttrs): set<string> {
    (if attrs.product.Some? then {"product"} else {}) +
    (if attrs.text.Some? then {"text"} else {}) +
    (if attrs.rating.Some? then {"rating"} else {})
  }

  const ReviewUpdateFields: set<string> := {"rating", "text"}

  /** Review update: field rules on what is supplied, then only rating and
      text may change. */
  function ValidateReviewUpdate(attrs: ReviewAttrs, products: map<Id, Product>): (r: Outcome)
    ensures r.Pass? <==> attrs.product.None? && (attrs.rating.Some? ==> RatingValid(attrs.rating.value))
    ensures attrs.product.Some? && attrs.product.value in products &&
            (attrs.rating.Some? ==> RatingValid(attrs.rating.value)) ==>
              r == Fail(Invalid(FieldsNotAllowed(ReviewUpdateFields)))
  {
    if attrs.product.Some? && attrs.product.value !in products then Fail(Invalid(UnknownProduct))
    else if attrs.rating.Some? && !RatingValid(attrs.rating.value) then Fail(Invalid(RatingOutOfRange))
    else CheckAllowedFields(ReviewAttrKeys(attrs), ReviewUpdateFields)
  }

  // Collections.

  /** Collection create: every id resolves, then a non-empty list, then no
      product named twice. */
  function ValidateCollectionCreate(ids: seq<Id>, products: map<Id, Product>): (r: Outcome)
    ensures r.Pass? <==> ids != [] && (forall i :: 0 <= i < |ids| ==> ids[i] in products) && Distinct(ids)
    ensures ids == [] ==> r == Fail(Invalid(NoProducts))
    ensures r == Fail(Invalid(DuplicateProducts)) <==>
              (forall i :: 0 <= i < |ids| ==> ids[i] in products) && ids != [] && !Distinct(ids)
  {
    NoDuplicatesIffDistinct(ids);
    var fields := CheckProducts(ids, products);
    if fields.Fail? then fields
    else if ids == [] then Fail(Invalid(NoProducts))
    else if !NoDuplicates(ids) then Fail(Invalid(DuplicateProducts))
    else Pass
  }

  /** The writable fields of a collection update. */
  datatype CollectionAttrs = CollectionAttrs(title: Option<string>, text: Option<string>,
                                             products: Option<seq<Id>>)

  /** Collection update: only the field rule on the ids; validate() adds
      nothing outside create, so empty and repeated lists pass. */
  function ValidateCollectionUpdate(attrs: CollectionAttrs, products: map<Id, Product>): (r: Outcome)
    ensures r.Pass? <==> (attrs.products.Some? ==>
                            forall i :: 0 <= i < |attrs.products.value| ==> attrs.products.value[i] in products)
  {
    if attrs.products.Some? then CheckProducts(attrs.products.value, products) else Pass
  }

  // Favourites.

  /** The products in a user's favourites (the values_list of the check). */
  function FavoriteProducts(user: UserId, favorites: map<Id, Favorite>): (s: set<Id>)
    ensures forall p :: p in s <==> exists k :: k in favorites && favorites[k].user == user && favorites[k].product == p
  {
    set k | k in favorites && favorites[k].user == user :: favorites[k].product
  }

  /** Favourite create: the product resolves and is not yet among the caller's favourites. */
  function ValidateFavorite(user: UserId, product: Id, favorites: map<Id, Favorite>,
                            products: map<Id, Product>): (r: Outcome)
    ensures r.Pass? <==> product in products && product !in FavoriteProducts(user, favorites)
    ensures product in products && product in FavoriteProducts(user, favorites) ==>
              r == Fail(Invalid(AlreadyFavorite))
  {
    if product !in products then Fail(Invalid(UnknownProduct))
    else if product in FavoriteProducts(user, favorites) then Fail(Invalid(AlreadyFavorite))
    else Pass
  }
}
