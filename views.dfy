/** The access policy of the viewsets: which permissions each action needs,
    which rows each caller can see, and how a detail route resolves an id. */
module Views {
  import opened Outcomes
  import opened Models

  /** The caller of a request: anonymous, or a user with the staff flag. */
  datatype Principal = Anonymous | User(id: UserId, isStaff: bool)

  datatype Resource = Products | ProductReviews | Orders | Collections | Favorites

  datatype Action = List | Retrieve | Create | Update | PartialUpdate | Destroy

  /** The permission classes the viewsets return. IsOwnerOrAdmin is defined
      in api/permissions.py, which is not part of this model: it is taken to
      allow every request at view level and an owner or staff user at object
      level. */
  datatype Permission = IsAuthenticated | IsAdminUser | IsOwnerOrAdmin

  predicate Mutating(a: Action) {
    a == Create || a == Update || a == PartialUpdate || a == Destroy
  }

  /** Actions on a detail route, where the object is looked up first. */
  predicate OnObject(a: Action) {
    a == Retrieve || a == Update || a == PartialUpdate || a == Destroy
  }

  /** get_permissions of each viewset. */
  function GetPermissions(res: Resource, a: Action): seq<Permission> {
    match res
    case Products | Collections =>
      if Mutating(a) then [IsAuthenticated, IsAdminUser] else []
    case ProductReviews | Orders =>
      if Mutating(a) then [IsAuthenticated, IsOwnerOrAdmin] else []
    case Favorites =>
      [IsAuthenticated]
  }

  predicate HasPermission(p: Permission, caller: Principal) {
    match p
    case IsAuthenticated => caller.User?
    case IsAdminUser => caller.User? && caller.isStaff
    case IsOwnerOrAdmin => true
  }

  predicate HasObjectPermission(p: Permission, caller: Principal, isOwner: bool) {
    match p
    case IsOwnerOrAdmin => caller.User? && (caller.isStaff || isOwner)
    case _ => true
  }

  /** A refused permission: 401 when nobody is logged in, 403 otherwise. */
  function Denied(caller: Principal): Error {
    if caller.Anonymous? then Unauthenticated else Forbidden
  }

  /** check_permissions: the first permission that refuses stops the request. */
  function CheckPermissions(perms: seq<Permission>, caller: Principal): (r: Outcome)
    ensures r.Pass? <==> forall i :: 0 <= i < |perms| ==> HasPermission(perms[i], caller)
    ensures r.Fail? ==> r.error == Denied(caller)
  {
    if perms == [] then Pass
    else if !HasPermission(perms[0], caller) then Fail(Denied(caller))
    else CheckPermissions(perms[1..], caller)
  }

  /** check_object_permissions, run once the object has been found. */
  function CheckObjectPermissions(perms: seq<Permission>, caller: Principal, isOwner: bool): (r: Outcome)
    ensures r.Pass? <==> forall i :: 0 <= i < |perms| ==> HasObjectPermission(perms[i], caller, isOwner)
    ensures r.Fail? ==> r.error == Denied(caller)
  {
    if perms == [] then Pass
    else if !HasObjectPermission(perms[0], caller, isOwner) then Fail(Denied(caller))
    else CheckObjectPermissions(perms[1..], caller, isOwner)
  }

  /** The access decision for (resource, action, caller, is-owner): the view
      permissions, then the object permissions on a detail route. */
  function Access(res: Resource, a: Action, caller: Principal, isOwner: bool): Outcome {
    var v := CheckPermissions(GetPermissions(res, a), caller);
    if v.Fail? then v
    else if OnObject(a) then CheckObjectPermissions(GetPermissions(res, a), caller, isOwner)
    else Pass
  }

  /** Products and collections: writes need a logged-in staff user, reads nothing. */
  lemma CatalogWritesNeedStaff(res: Resource, a: Action, caller: Principal, isOwner: bool)
    requires res == Products || res == Collections
    ensures Access(res, a, caller, isOwner).Pass? <==> !Mutating(a) || (caller.User? && caller.isStaff)
    ensures Access(res, a, caller, isOwner).Fail? ==> Access(res, a, caller, isOwner).error == Denied(caller)
  {
    var perms := GetPermissions(res, a);
    if Mutating(a) {
      assert perms[0] == IsAuthenticated && perms[1] == IsAdminUser;
    }
  }

  /** Reviews and orders: reads are open; create needs a login; update and
      destroy need a login and the owner or a staff user. */
  lemma OwnedWritesNeedOwnerOrStaff(res: Resource, a: Action, caller: Principal, isOwner: bool)
    requires res == ProductReviews || res == Orders
    ensures Access(res, a, caller, isOwner).Pass? <==>
              !Mutating(a) || (caller.User? && (a == Create || caller.isStaff || isOwner))
    ensures Access(res, a, caller, isOwner).Fail? ==> Access(res, a, caller, isOwner).error == Denied(caller)
  {
    var perms := GetPermissions(res, a);
    if Mutating(a) {
      assert perms[0] == IsAuthenticated && perms[1] == IsOwnerOrAdmin;
    }
  }

  /** Favourites: every action needs a login, and nothing more at this level. */
  lemma FavoritesNeedLogin(a: Action, caller: Principal, isOwner: bool)
    ensures Access(Favorites, a, caller, isOwner).Pass? <==> caller.User?
    ensures caller.Anonymous? ==> Access(Favorites, a, caller, isOwner) == Fail(Unauthenticated)
  {
  }

  // Querysets and detail lookups.

  /** OrderViewSet.get_queryset: staff see every order, a user their own.
      For an anonymous caller the filter compares the anonymous user with a
      user key, which raises inside the ORM. */
  function OrderQueryset(caller: Principal, orders: map<Id, Order>): (r: Result<set<Id>>)
    ensures r.Failure? <==> caller.Anonymous?
    ensures r.Failure? ==> r.error == InternalError
    ensures r.Success? ==> forall k :: k in r.value <==>
              k in orders && (caller.isStaff || orders[k].user == caller.id)
  {
    if caller.Anonymous? then Failure(InternalError)
    else if caller.isStaff then Success(orders.Keys)
    else Success(set k | k in orders && orders[k].user == caller.id)
  }

  /** FavoritesViewSet.get_queryset: a user's own favourites. */
  function FavoriteQueryset(user: UserId, favorites: map<Id, Favorite>): (r: set<Id>)
    ensures forall k :: k in r <==> k in favorites && favorites[k].user == user
  {
    set k | k in favorites && favorites[k].user == user
  }

  /** A detail route: permissions, then the lookup in the queryset (404 when
      the id is not in it), then object permissions. */
  function Detail(res: Resource, a: Action, caller: Principal, inQueryset: bool, isOwner: bool): Outcome
    requires OnObject(a)
  {
    var v := CheckPermissions(GetPermissions(res, a), caller);
    if v.Fail? then v
    else if !inQueryset then Fail(NotFound)
    else CheckObjectPermissions(GetPermissions(res, a), caller, isOwner)
  }

  /** A detail route on the product or collection viewset (queryset: all rows). */
  function CatalogDetail(res: Resource, a: Action, caller: Principal, found: bool): Outcome
    requires res == Products || res == Collections
    requires OnObject(a)
  {
    Detail(res, a, caller, found, false)
  }

  /** A detail route on the review viewset (queryset: all reviews). */
  function ReviewDetail(caller: Principal, a: Action, reviews: map<Id, Review>, rid: Id): Outcome
    requires OnObject(a)
  {
    Detail(ProductReviews, a, caller, rid in reviews,
           caller.User? && rid in reviews && reviews[rid].user == caller.id)
  }

  /** A detail route on the order viewset: the lookup goes through the scoped queryset. */
  function OrderDetail(caller: Principal, a: Action, orders: map<Id, Order>, oid: Id): Outcome
    requires OnObject(a)
  {
    var v := CheckPermissions(GetPermissions(Orders, a), caller);
    if v.Fail? then v
    else match OrderQueryset(caller, orders)
      case Failure(e) => Fail(e)
      case Success(visible) =>
        if oid !in visible then Fail(NotFound)
        else CheckObjectPermissions(GetPermissions(Orders, a), caller, orders[oid].user == caller.id)
  }

  /** A detail route on the favourites viewset. Retrieve and update look the
      id up in the caller's queryset; destroy does get_object_or_404 on
      (user, id), which is the same set. */
  function FavoriteDetail(caller: Principal, a: Action, favorites: map<Id, Favorite>, fid: Id): Outcome
    requires OnObject(a)
  {
    var v := CheckPermissions(GetPermissions(Favorites, a), caller);
    if v.Fail? then v
    else if a == Destroy then
      (if fid in favorites && favorites[fid].user == caller.id then Pass else Fail(NotFound))
    else Detail(Favorites, a, caller, fid in FavoriteQueryset(caller.id, favorites), true)
  }

  /** Someone else's order is invisible rather than forbidden: an order
      detail route never answers 403; a logged-in non-staff caller gets 404 on
      an order of another user, and its owner or a staff user gets through. */
  lemma OrderOfAnotherUserIsNotFound(caller: Principal, a: Action, orders: map<Id, Order>, oid: Id)
    requires OnObject(a)
    ensures OrderDetail(caller, a, orders, oid) != Fail(Forbidden)
    ensures caller.User? && !caller.isStaff && oid in orders && orders[oid].user != caller.id ==>
              OrderDetail(caller, a, orders, oid) == Fail(NotFound)
    ensures caller.User? && oid in orders && (caller.isStaff || orders[oid].user == caller.id) ==>
              OrderDetail(caller, a, orders, oid) == Pass
    ensures caller.User? && oid !in orders ==> OrderDetail(caller, a, orders, oid) == Fail(NotFound)
    ensures caller.Anonymous? ==>
              OrderDetail(caller, a, orders, oid) == Fail(if Mutating(a) then Unauthenticated else InternalError)
  {
  }

  /** Reviews, by contrast, are visible to everyone: a write to an existing
      review by a logged-in caller who is neither its author nor staff is
      forbidden (403), and only a missing review is not found. */
  lemma ReviewWriteDecision(caller: Principal, a: Action, reviews: map<Id, Review>, rid: Id)
    requires a == Update || a == PartialUpdate || a == Destroy
    ensures ReviewDetail(caller, a, reviews, rid) ==
              if caller.Anonymous? then Fail(Unauthenticated)
              else if rid !in reviews then Fail(NotFound)
              else if !caller.isStaff && reviews[rid].user != caller.id then Fail(Forbidden)
              else Pass
  {
    var perms := GetPermissions(ProductReviews, a);
    assert perms[0] == IsAuthenticated && perms[1] == IsOwnerOrAdmin;
  }

  /** A write to a product or collection on its detail route: a non-staff
      caller is refused before the lookup, a staff caller gets 404 for a
      missing row. */
  lemma CatalogWriteDecision(res: Resource, a: Action, caller: Principal, found: bool)
    requires res == Products || res == Collections
    requires a == Update || a == PartialUpdate || a == Destroy
    ensures CatalogDetail(res, a, caller, found) ==
              if !(caller.User? && caller.isStaff) then Fail(Denied(caller))
              else if !found then Fail(NotFound)
              else Pass
  {
    var perms := GetPermissions(res, a);
    assert perms[0] == IsAuthenticated && perms[1] == IsAdminUser;
  }

  /** Favourites are scoped to their owner on every detail route: the owner
      gets through, every other logged-in user gets 404, an anonymous caller 401. */
  lemma FavoriteDetailIsScoped(caller: Principal, a: Action, favorites: map<Id, Favorite>, fid: Id)
    requires OnObject(a)
    ensures caller.Anonymous? ==> FavoriteDetail(caller, a, favorites, fid) == Fail(Unauthenticated)
    ensures caller.User? ==>
              FavoriteDetail(caller, a, favorites, fid) ==
              (if fid in favorites && favorites[fid].user == caller.id then Pass else Fail(NotFound))
  {
  }

  /** The favourites list: a login is needed, then exactly the caller's own rows. */
  function FavoriteList(caller: Principal, favorites: map<Id, Favorite>): (r: Result<set<Id>>)
    ensures r.Failure? <==> caller.Anonymous?
    ensures r.Failure? ==> r.error == Unauthenticated
    ensures r.Success? ==> forall k :: k in r.value <==> k in favorites && favorites[k].user == caller.id
  {
    var v := CheckPermissions(GetPermissions(Favorites, List), caller);
    if v.Fail? then Failure(v.error) else Success(FavoriteQueryset(caller.id, favorites))
  }
}
