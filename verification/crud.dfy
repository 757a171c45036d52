/**
 The data access layer: one function per database operation. Each takes the
 store and the call's arguments and returns what the call returns (a value,
 Python's `None`, or a raised exception) together with the store after the
 call. A call that returns `None` or raises writes nothing.

 Most operations are gated on an email address: the caller is the user whose
 email it is, looked up with `query(User).filter(User.email == email).first()`.
 */
module Crud {
  import opened Wrappers
  import opened Models
  import opened Tables
  import opened Paging
  import opened Text

  /** The exceptions a call can raise. */
  datatype Fault = TypeError | AttributeError | IntegrityError

  /** What a call hands back: a value, `None`, or an exception. */
  datatype Reply<T> = Value(value: T) | Null | Raised(fault: Fault)

  /** The reply of a call and the store after it. */
  datatype Step<T> = Step(reply: Reply<T>, store: Store)

  /** The user an email resolves to: the first row, in ascending id order, holding that email. */
  function CallerId(db: Store, email: string): (r: Option<int>)
    ensures r.Some? <==> EmailResolves(db, email)
    ensures r.Some? ==> r.value in db.users && db.users[r.value].email == email
    ensures r.Some? ==> forall k :: k in db.users && db.users[k].email == email ==> r.value <= k
  {
    var holders := set k | k in db.users && db.users[k].email == email;
    assert forall k :: k in db.users && db.users[k].email == email ==> k in holders;
    if holders == {} then None
    else Some(Least(holders))
  }

  // ---------------------------------------------------------------------------
  // Row filters of the list queries

  /** The goods whose title matches `pattern`: `filter(Good.title.ilike(pattern))`. */
  function GoodsTitled(goods: map<int, Good>, pattern: string): (r: map<int, Good>)
    ensures forall k :: k in r <==> k in goods && ILike(goods[k].title, pattern)
    ensures forall k :: k in r ==> r[k] == goods[k]
    ensures forall g :: g in r.Values ==> g in goods.Values && ILike(g.title, pattern)
  {
    map k | k in goods && ILike(goods[k].title, pattern) :: goods[k]
  }

  /** The locations of user `uid`: `filter(Location.user_id == uid)`. */
  function LocationsOf(locations: map<int, Location>, uid: int): (r: map<int, Location>)
    ensures forall k :: k in r <==> k in locations && locations[k].userId == uid
    ensures forall k :: k in r ==> r[k] == locations[k]
    ensures forall l :: l in r.Values ==> l in locations.Values && l.userId == uid
  {
    map k | k in locations && locations[k].userId == uid :: locations[k]
  }

  /** The shares of user `uid`: `filter(Share.user_id == uid)`. */
  function SharesOf(shares: map<int, Share>, uid: int): (r: map<int, Share>)
    ensures forall k :: k in r <==> k in shares && shares[k].userId == uid
    ensures forall k :: k in r ==> r[k] == shares[k]
    ensures forall s :: s in r.Values ==> s in shares.Values && s.userId == uid
  {
    map k | k in shares && shares[k].userId == uid :: shares[k]
  }

  /** The images of user `uid`: `filter(Image.user_id == uid)`. */
  function ImagesOf(images: map<int, Image>, uid: int): (r: map<int, Image>)
    ensures forall k :: k in r <==> k in images && images[k].userId == uid
    ensures forall k :: k in r ==> r[k] == images[k]
    ensures forall i :: i in r.Values ==> i in images.Values && i.userId == uid
  {
    map k | k in images && images[k].userId == uid :: images[k]
  }

  // ---------------------------------------------------------------------------
  // Users

  function GetUser(db: Store, email: string, userId: int): (r: Step<User>)
    ensures r.store == db && !r.reply.Raised?
    ensures r.reply.Value? <==> EmailResolves(db, email) && userId in db.users
    ensures r.reply.Value? ==> r.reply.value == db.users[userId]
  {
    if CallerId(db, email).None? then Step(Null, db)
    else if userId in db.users then Step(Value(db.users[userId]), db)
    else Step(Null, db)
  }

  function GetUserByEmail(db: Store, email: string): (r: Step<User>)
    ensures r.store == db && !r.reply.Raised?
    ensures r.reply.Value? <==> EmailResolves(db, email)
    ensures r.reply.Value? ==> r.reply.value.email == email && r.reply.value in db.users.Values
  {
    match CallerId(db, email)
    case None => Step(Null, db)
    case Some(k) => Step(Value(db.users[k]), db)
  }

  function GetUsers(db: Store, email: string, skip: nat, limit: nat): (r: Step<seq<User>>)
    ensures r.store == db && !r.reply.Raised?
    ensures r.reply.Null? <==> !EmailResolves(db, email)
    ensures r.reply.Value? ==> |r.reply.value| <= limit
    ensures r.reply.Value? ==> forall u :: u in r.reply.value ==> u in db.users.Values
  {
    if CallerId(db, email).None? then Step(Null, db)
    else Step(Value(Page(Rows(db.users), skip, limit)), db)
  }

  /**
   Inserts a user with the given email and password. The unique constraint on
   `users.email` makes the insert fail when the email is already registered.
   */
  function CreateUser(db: Store, p: UserCreate): (r: Step<User>)
    ensures !r.reply.Null?
    ensures r.reply.Raised? <==> EmailResolves(db, p.email)
    ensures r.reply.Raised? ==> r.reply.fault == IntegrityError && r.store == db
    ensures r.reply.Value? ==>
      var u := r.reply.value;
      && u.email == p.email && u.hashedPassword == p.password && u.name.None?
      && u.isActive && u.public
      && Inserted(db.users, r.store.users, u.id, u)
      && SameExcept(db, r.store, Users)
    ensures Valid(db) ==> Valid(r.store)
  {
    if CallerId(db, p.email).Some? then Step(Raised(IntegrityError), db)
    else
      var u := NewUser(FreshId(db.users.Keys), p);
      NewUserKeepsValid(db, u);
      Step(Value(u), db.(users := db.users[u.id := u]))
  }

  /** Adding a user whose id and email are unused and whose name is NULL keeps the store valid. */
  lemma NewUserKeepsValid(db: Store, u: User)
    requires u.id !in db.users && u.name.None?
    requires !EmailResolves(db, u.email)
    ensures Valid(db) ==> Valid(db.(users := db.users[u.id := u]))
  {
    var users := db.users[u.id := u];
    if Valid(db) {
      forall a, b | a in users && b in users && a != b
        ensures users[a].email != users[b].email
        ensures users[a].name.None? || users[a].name != users[b].name
      {
        if a != u.id && b != u.id {
          assert users[a] == db.users[a] && users[b] == db.users[b];
        }
      }
    }
  }

  /** Writing `p` onto row `userId` would give two users the same email, or the same non-NULL name. */
  predicate ClashesWithOtherUser(users: map<int, User>, userId: int, p: UserUpdate) {
    exists k :: k in users && k != userId && (users[k].email == p.email || (p.name.Some? && users[k].name == p.name))
  }

  /**
   Overwrites the caller's own row with the payload. The unique constraints on
   `users.email` and `users.name` make the write fail when it would clash with
   another user.
   */
  function UpdateUser(db: Store, email: string, p: UserUpdate, userId: int): (r: Step<User>)
    ensures r.reply.Null? <==> CallerId(db, email) != Some(userId)
    ensures r.reply.Null? ==> r.store == db
    ensures r.reply.Raised? <==> CallerId(db, email) == Some(userId) && ClashesWithOtherUser(db.users, userId, p)
    ensures r.reply.Raised? ==> r.reply.fault == IntegrityError && r.store == db
    ensures r.reply.Value? ==>
      && r.reply.value.id == userId && UserFields(r.reply.value) == p
      && Upserted(db.users, r.store.users, userId, r.reply.value)
      && SameExcept(db, r.store, Users)
    ensures Valid(db) ==> Valid(r.store)
  {
    if CallerId(db, email) != Some(userId) then Step(Null, db)
    else if ClashesWithOtherUser(db.users, userId, p) then Step(Raised(IntegrityError), db)
    else
      var u := UserFrom(userId, p);
      Step(Value(u), db.(users := db.users[userId := u]))
  }

  /** Deletes the caller's own user row; rows of other tables that refer to it stay. */
  function DeleteUser(db: Store, email: string, userId: int): (r: Step<nat>)
    ensures !r.reply.Raised?
    ensures r.reply.Value? <==> CallerId(db, email) == Some(userId)
    ensures r.reply.Null? ==> r.store == db
    ensures r.reply.Value? ==>
      && r.reply.value == 1
      && Removed(db.users, r.store.users, userId)
      && SameExcept(db, r.store, Users)
    ensures Valid(db) ==> Valid(r.store)
  {
    if CallerId(db, email) != Some(userId) then Step(Null, db)
    else
      var count := if userId in db.users then 1 else 0;
      Step(Value(count), db.(users := db.users - {userId}))
  }

  // ---------------------------------------------------------------------------
  // Goods

  /**
   Lists goods. With a search term, only goods whose whole title equals the
   term up to ASCII case are listed (`title ILIKE q`).
   */
  function GetGoods(db: Store, skip: nat, limit: nat, q: Option<string>): (r: Step<seq<Good>>)
    ensures r.store == db && r.reply.Value?
    ensures |r.reply.value| <= limit
    ensures forall g :: g in r.reply.value ==> g in db.goods.Values
    ensures q.Some? ==> forall g :: g in r.reply.value ==> ILike(g.title, q.value)
  {
    match q
    case Some(pattern) =>
      Step(Value(Page(Rows(GoodsTitled(db.goods, pattern)), skip, limit)), db)
    case None =>
      Step(Value(Page(Rows(db.goods), skip, limit)), db)
  }

  function CreateUserGood(db: Store, email: string, p: GoodCreate, userId: int): (r: Step<Good>)
    ensures !r.reply.Raised?
    ensures r.reply.Value? <==> CallerId(db, email) == Some(userId)
    ensures r.reply.Null? ==> r.store == db
    ensures r.reply.Value? ==>
      var g := r.reply.value;
      && g.ownerId == userId && g.title == p.title && g.description == p.description
      && g.locationId.None?
      && Inserted(db.goods, r.store.goods, g.id, g)
      && SameExcept(db, r.store, Goods)
    ensures Valid(db) ==> Valid(r.store)
  {
    if CallerId(db, email) != Some(userId) then Step(Null, db)
    else
      var g := NewGood(FreshId(db.goods.Keys), userId, p);
      var after := db.(goods := db.goods[g.id := g]);
      InsertingFreshId(db.goods, g.id, g);
      assert KeyedById(db) ==> KeyedById(after);
      Step(Value(g), after)
  }

  /** Writes the payload onto the good `goodId`, creating it if absent. Any caller whose email resolves may do so. */
  function UpdateGood(db: Store, email: string, p: GoodUpdate, goodId: int): (r: Step<Good>)
    ensures !r.reply.Raised?
    ensures r.reply.Null? <==> !EmailResolves(db, email)
    ensures r.reply.Null? ==> r.store == db
    ensures r.reply.Value? ==>
      && r.reply.value.id == goodId && GoodFields(r.reply.value) == p
      && Upserted(db.goods, r.store.goods, goodId, r.reply.value)
      && SameExcept(db, r.store, Goods)
    ensures Valid(db) ==> Valid(r.store)
  {
    if CallerId(db, email).None? then Step(Null, db)
    else
      var g := GoodFrom(goodId, p);
      Step(Value(g), db.(goods := db.goods[goodId := g]))
  }

  /** Deletes the good `goodId` if the caller owns it; returns the number of rows deleted. */
  function DeleteGood(db: Store, email: string, goodId: int): (r: Step<nat>)
    ensures !r.reply.Raised?
    ensures r.reply.Null? <==> !EmailResolves(db, email)
    ensures r.reply.Null? ==> r.store == db
    ensures r.reply.Value? ==>
      && SameExcept(db, r.store, Goods)
      && r.reply.value == |db.goods| - |r.store.goods|
      && (r.reply.value == 1 <==> goodId in db.goods && Some(db.goods[goodId].ownerId) == CallerId(db, email))
      && (r.reply.value == 1 ==> Removed(db.goods, r.store.goods, goodId))
      && (r.reply.value != 1 ==> r.reply.value == 0 && r.store == db)
    ensures forall k :: k in db.goods && k !in r.store.goods ==>
      k == goodId && CallerId(db, email) == Some(db.goods[k].ownerId)
    ensures Valid(db) ==> Valid(r.store)
  {
    match CallerId(db, email)
    case None => Step(Null, db)
    case Some(uid) =>
      if goodId in db.goods && db.goods[goodId].ownerId == uid then
        Step(Value(1), db.(goods := db.goods - {goodId}))
      else
        Step(Value(0), db)
  }

  // ---------------------------------------------------------------------------
  // Locations

  function CreateLocation(db: Store, email: string, p: LocationCreate, userId: int): (r: Step<Location>)
    ensures !r.reply.Raised?
    ensures r.reply.Value? <==> CallerId(db, email) == Some(userId)
    ensures r.reply.Null? ==> r.store == db
    ensures r.reply.Value? ==>
      var l := r.reply.value;
      && l.userId == userId && l.public
      && l.name == p.name && l.zip == p.zip && l.city == p.city && l.address == p.address
      && l.lat == p.lat && l.lon == p.lon
      && Inserted(db.locations, r.store.locations, l.id, l)
      && SameExcept(db, r.store, Locations)
    ensures Valid(db) ==> Valid(r.store)
  {
    if CallerId(db, email) != Some(userId) then Step(Null, db)
    else
      var l := NewLocation(FreshId(db.locations.Keys), userId, p);
      var after := db.(locations := db.locations[l.id := l]);
      InsertingFreshId(db.locations, l.id, l);
      assert KeyedById(db) ==> KeyedById(after);
      Step(Value(l), after)
  }

  function GetLocations(db: Store, email: string, skip: nat, limit: nat): (r: Step<seq<Location>>)
    ensures r.store == db && !r.reply.Raised?
    ensures r.reply.Null? <==> !EmailResolves(db, email)
    ensures r.reply.Value? ==> |r.reply.value| <= limit
    ensures r.reply.Value? ==> forall l :: l in r.reply.value ==>
      l in db.locations.Values && Some(l.userId) == CallerId(db, email)
  {
    match CallerId(db, email)
    case None => Step(Null, db)
    case Some(uid) =>
      Step(Value(Page(Rows(LocationsOf(db.locations, uid)), skip, limit)), db)
  }

  /** Writes the payload onto the location `locationId`, creating it if absent. Any caller whose email resolves may do so. */
  function UpdateLocation(db: Store, email: string, p: LocationUpdate, locationId: int): (r: Step<Location>)
    ensures !r.reply.Raised?
    ensures r.reply.Null? <==> !EmailResolves(db, email)
    ensures r.reply.Null? ==> r.store == db
    ensures r.reply.Value? ==>
      && r.reply.value.id == locationId && LocationFields(r.reply.value) == p
      && Upserted(db.locations, r.store.locations, locationId, r.reply.value)
      && SameExcept(db, r.store, Locations)
    ensures Valid(db) ==> Valid(r.store)
  {
    if CallerId(db, email).None? then Step(Null, db)
    else
      var l := LocationFrom(locationId, p);
      Step(Value(l), db.(locations := db.locations[locationId := l]))
  }

  /** Deletes the location `locationId` if the caller owns it; returns the number of rows deleted. */
  function DeleteLocation(db: Store, email: string, locationId: int): (r: Step<nat>)
    ensures !r.reply.Raised?
    ensures r.reply.Null? <==> !EmailResolves(db, email)
    ensures r.reply.Null? ==> r.store == db
    ensures r.reply.Value? ==>
      && SameExcept(db, r.store, Locations)
      && r.reply.value == |db.locations| - |r.store.locations|
      && (r.reply.value == 1 <==> locationId in db.locations && Some(db.locations[locationId].userId) == CallerId(db, email))
      && (r.reply.value == 1 ==> Removed(db.locations, r.store.locations, locationId))
      && (r.reply.value != 1 ==> r.reply.value == 0 && r.store == db)
    ensures forall k :: k in db.locations && k !in r.store.locations ==>
      k == locationId && CallerId(db, email) == Some(db.locations[k].userId)
    ensures Valid(db) ==> Valid(r.store)
  {
    match CallerId(db, email)
    case None => Step(Null, db)
    case Some(uid) =>
      if locationId in db.locations && db.locations[locationId].userId == uid then
        Step(Value(1), db.(locations := db.locations - {locationId}))
      else
        Step(Value(0), db)
  }

  // ---------------------------------------------------------------------------
  // Shares

  function CreateShare(db: Store, email: string, p: ShareCreate, userId: int): (r: Step<Share>)
    ensures !r.reply.Raised?
    ensures r.reply.Value? <==> CallerId(db, email) == Some(userId)
    ensures r.reply.Null? ==> r.store == db
    ensures r.reply.Value? ==>
      var s := r.reply.value;
      && s.userId == userId && s.goodId == p.goodId && s.startDate == p.startDate
      && s.plannedEndDate.None? && s.endDate.None? && s.locationId.None?
      && Inserted(db.shares, r.store.shares, s.id, s)
      && SameExcept(db, r.store, Shares)
    ensures Valid(db) ==> Valid(r.store)
  {
    if CallerId(db, email) != Some(userId) then Step(Null, db)
    else
      var s := NewShare(FreshId(db.shares.Keys), userId, p);
      var after := db.(shares := db.shares[s.id := s]);
      InsertingFreshId(db.shares, s.id, s);
      assert KeyedById(db) ==> KeyedById(after);
      Step(Value(s), after)
  }

  function GetShares(db: Store, email: string, skip: nat, limit: nat): (r: Step<seq<Share>>)
    ensures r.store == db && !r.reply.Raised?
    ensures r.reply.Null? <==> !EmailResolves(db, email)
    ensures r.reply.Value? ==> |r.reply.value| <= limit
    ensures r.reply.Value? ==> forall s :: s in r.reply.value ==>
      s in db.shares.Values && Some(s.userId) == CallerId(db, email)
  {
    match CallerId(db, email)
    case None => Step(Null, db)
    case Some(uid) =>
      Step(Value(Page(Rows(SharesOf(db.shares, uid)), skip, limit)), db)
  }

  /** Writes the payload onto the share `shareId`, creating it if absent. Any caller whose email resolves may do so. */
  function UpdateShare(db: Store, email: string, p: ShareUpdate, shareId: int): (r: Step<Share>)
    ensures !r.reply.Raised?
    ensures r.reply.Null? <==> !EmailResolves(db, email)
    ensures r.reply.Null? ==> r.store == db
    ensures r.reply.Value? ==>
      && r.reply.value.id == shareId && ShareFields(r.reply.value) == p
      && Upserted(db.shares, r.store.shares, shareId, r.reply.value)
      && SameExcept(db, r.store, Shares)
    ensures Valid(db) ==> Valid(r.store)
  {
    if CallerId(db, email).None? then Step(Null, db)
    else
      var s := ShareFrom(shareId, p);
      Step(Value(s), db.(shares := db.shares[shareId := s]))
  }

  /** Deletes the share `shareId` if the caller owns it; returns the number of rows deleted. */
  function DeleteShare(db: Store, email: string, shareId: int): (r: Step<nat>)
    ensures !r.reply.Raised?
    ensures r.reply.Null? <==> !EmailResolves(db, email)
    ensures r.reply.Null? ==> r.store == db
    ensures r.reply.Value? ==>
      && SameExcept(db, r.store, Shares)
      && r.reply.value == |db.shares| - |r.store.shares|
      && (r.reply.value == 1 <==> shareId in db.shares && Some(db.shares[shareId].userId) == CallerId(db, email))
      && (r.reply.value == 1 ==> Removed(db.shares, r.store.shares, shareId))
      && (r.reply.value != 1 ==> r.reply.value == 0 && r.store == db)
    ensures forall k :: k in db.shares && k !in r.store.shares ==>
      k == shareId && CallerId(db, email) == Some(db.shares[k].userId)
    ensures Valid(db) ==> Valid(r.store)
  {
    match CallerId(db, email)
    case None => Step(Null, db)
    case Some(uid) =>
      if shareId in db.shares && db.shares[shareId].userId == uid then
        Step(Value(1), db.(shares := db.shares - {shareId}))
      else
        Step(Value(0), db)
  }

  // ---------------------------------------------------------------------------
  // Images

  function CreateImage(db: Store, email: string, p: ImageCreate, userId: int): (r: Step<Image>)
    ensures !r.reply.Raised?
    ensures r.reply.Value? <==> CallerId(db, email) == Some(userId)
    ensures r.reply.Null? ==> r.store == db
    ensures r.reply.Value? ==>
      var i := r.reply.value;
      && i.userId == userId && i.name == p.name && i.mimeType == DefaultMimeType
      && i.url.None? && i.content.None? && i.goodId.None? && i.shareId.None?
      && Inserted(db.images, r.store.images, i.id, i)
      && SameExcept(db, r.store, Images)
    ensures Valid(db) ==> Valid(r.store)
  {
    if CallerId(db, email) != Some(userId) then Step(Null, db)
    else
      var i := NewImage(FreshId(db.images.Keys), userId, p);
      var after := db.(images := db.images[i.id := i]);
      InsertingFreshId(db.images, i.id, i);
      assert KeyedById(db) ==> KeyedById(after);
      Step(Value(i), after)
  }

  /** The caller behind `email` owns the image `imageId`. */
  predicate OwnsImage(db: Store, email: string, imageId: int) {
    imageId in db.images && CallerId(db, email) == Some(db.images[imageId].userId)
  }

  /**
   Stores `content` as the content of the caller's own image `imageId`. An
   image that is missing or belongs to someone else is answered with `None`.
   */
  function AddImageFile(db: Store, email: string, imageId: int, content: Bytes): (r: Step<Image>)
    ensures !r.reply.Raised?
    ensures r.reply.Value? <==> imageId in db.images && CallerId(db, email) == Some(db.images[imageId].userId)
    ensures r.reply.Null? ==> r.store == db
    ensures r.reply.Value? ==>
      && r.reply.value.content == Some(content)
      && r.reply.value.(content := db.images[imageId].content) == db.images[imageId]
      && r.store.images.Keys == db.images.Keys
      && Upserted(db.images, r.store.images, imageId, r.reply.value)
      && SameExcept(db, r.store, Images)
    ensures Valid(db) ==> Valid(r.store)
  {
    if !OwnsImage(db, email, imageId) then Step(Null, db)
    else
      var i := db.images[imageId].(content := Some(content));
      Step(Value(i), db.(images := db.images[imageId := i]))
  }

  /** Reads the image `imageId`, whoever owns it, once the caller's email resolves. */
  function GetImage(db: Store, email: string, imageId: int): (r: Step<Image>)
    ensures r.store == db && !r.reply.Raised?
    ensures r.reply.Value? <==> EmailResolves(db, email) && imageId in db.images
    ensures r.reply.Value? ==> r.reply.value == db.images[imageId]
  {
    if CallerId(db, email).None? then Step(Null, db)
    else if imageId in db.images then Step(Value(db.images[imageId]), db)
    else Step(Null, db)
  }

  /** Writes the payload onto the image `imageId`, creating it if absent. Any caller whose email resolves may do so. */
  function UpdateImage(db: Store, email: string, p: ImageUpdate, imageId: int): (r: Step<Image>)
    ensures !r.reply.Raised?
    ensures r.reply.Null? <==> !EmailResolves(db, email)
    ensures r.reply.Null? ==> r.store == db
    ensures r.reply.Value? ==>
      && r.reply.value.id == imageId && ImageFields(r.reply.value) == p
      && Upserted(db.images, r.store.images, imageId, r.reply.value)
      && SameExcept(db, r.store, Images)
    ensures Valid(db) ==> Valid(r.store)
  {
    if CallerId(db, email).None? then Step(Null, db)
    else
      var i := ImageFrom(imageId, p);
      Step(Value(i), db.(images := db.images[imageId := i]))
  }

  /** Deletes the image `imageId` if the caller owns it; returns the number of rows deleted. */
  function DeleteImage(db: Store, email: string, imageId: int): (r: Step<nat>)
    ensures !r.reply.Raised?
    ensures r.reply.Null? <==> !EmailResolves(db, email)
    ensures r.reply.Null? ==> r.store == db
    ensures r.reply.Value? ==>
      && SameExcept(db, r.store, Images)
      && r.reply.value == |db.images| - |r.store.images|
      && (r.reply.value == 1 <==> imageId in db.images && Some(db.images[imageId].userId) == CallerId(db, email))
      && (r.reply.value == 1 ==> Removed(db.images, r.store.images, imageId))
      && (r.reply.value != 1 ==> r.reply.value == 0 && r.store == db)
    ensures forall k :: k in db.images && k !in r.store.images ==>
      k == imageId && CallerId(db, email) == Some(db.images[k].userId)
    ensures Valid(db) ==> Valid(r.store)
  {
    match CallerId(db, email)
    case None => Step(Null, db)
    case Some(uid) =>
      if imageId in db.images && db.images[imageId].userId == uid then
        Step(Value(1), db.(images := db.images - {imageId}))
      else
        Step(Value(0), db)
  }

  function GetImages(db: Store, email: string, skip: nat, limit: nat): (r: Step<seq<Image>>)
    ensures r.store == db && !r.reply.Raised?
    ensures r.reply.Null? <==> !EmailResolves(db, email)
    ensures r.reply.Value? ==> |r.reply.value| <= limit
    ensures r.reply.Value? ==> forall i :: i in r.reply.value ==>
      i in db.images.Values && Some(i.userId) == CallerId(db, email)
  {
    match CallerId(db, email)
    case None => Step(Null, db)
    case Some(uid) =>
      Step(Value(Page(Rows(ImagesOf(db.images, uid)), skip, limit)), db)
  }
}
