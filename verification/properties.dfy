/**
 Properties that relate several operations of the data access layer: the email
 gate, listing completeness, reading back what was written, creation undone by
 deletion, and the places where the gate does not check ownership.
 */
module Properties {
  import opened Wrappers
  import opened Models
  import opened Tables
  import opened Paging
  import opened Text
  import opened Crud

  // ---------------------------------------------------------------------------
  // The email gate

  /** With unique emails, an email resolves to exactly the user that holds it. */
  lemma CallerIsTheHolder(db: Store, email: string, userId: int)
    requires Valid(db)
    ensures CallerId(db, email) == Some(userId) <==> userId in db.users && db.users[userId].email == email
  {
    if userId in db.users && db.users[userId].email == email {
      var c := CallerId(db, email).value;
      assert db.users[c].email == db.users[userId].email;
    }
  }

  /** When no user has the email, every email-gated operation answers `None` and writes nothing. */
  lemma UnresolvedEmailChangesNothing(
    db: Store, email: string, id: int, skip: nat, limit: nat, content: Bytes,
    gc: GoodCreate, lc: LocationCreate, sc: ShareCreate, ic: ImageCreate,
    uu: UserUpdate, gu: GoodUpdate, lu: LocationUpdate, su: ShareUpdate, iu: ImageUpdate)
    requires !EmailResolves(db, email)
    ensures GetUser(db, email, id) == Step(Null, db)
    ensures GetUsers(db, email, skip, limit) == Step(Null, db)
    ensures CreateUserGood(db, email, gc, id) == Step(Null, db)
    ensures CreateLocation(db, email, lc, id) == Step(Null, db)
    ensures CreateShare(db, email, sc, id) == Step(Null, db)
    ensures CreateImage(db, email, ic, id) == Step(Null, db)
    ensures GetLocations(db, email, skip, limit) == Step(Null, db)
    ensures GetShares(db, email, skip, limit) == Step(Null, db)
    ensures GetImages(db, email, skip, limit) == Step(Null, db)
    ensures AddImageFile(db, email, id, content) == Step(Null, db)
    ensures GetImage(db, email, id) == Step(Null, db)
    ensures UpdateUser(db, email, uu, id) == Step(Null, db)
    ensures UpdateGood(db, email, gu, id) == Step(Null, db)
    ensures UpdateLocation(db, email, lu, id) == Step(Null, db)
    ensures UpdateShare(db, email, su, id) == Step(Null, db)
    ensures UpdateImage(db, email, iu, id) == Step(Null, db)
    ensures DeleteGood(db, email, id) == Step(Null, db)
    ensures DeleteLocation(db, email, id) == Step(Null, db)
    ensures DeleteShare(db, email, id) == Step(Null, db)
    ensures DeleteImage(db, email, id) == Step(Null, db)
    ensures DeleteUser(db, email, id) == Step(Null, db)
  {
  }

  /**
   In a valid store the four create operations succeed exactly when `userId`
   names the user that holds `email`.
   */
  lemma CreateNeedsOwnEmail(
    db: Store, email: string, userId: int,
    gc: GoodCreate, lc: LocationCreate, sc: ShareCreate, ic: ImageCreate)
    requires Valid(db)
    ensures CreateUserGood(db, email, gc, userId).reply.Value? <==> userId in db.users && db.users[userId].email == email
    ensures CreateLocation(db, email, lc, userId).reply.Value? <==> userId in db.users && db.users[userId].email == email
    ensures CreateShare(db, email, sc, userId).reply.Value? <==> userId in db.users && db.users[userId].email == email
    ensures CreateImage(db, email, ic, userId).reply.Value? <==> userId in db.users && db.users[userId].email == email
  {
    CallerIsTheHolder(db, email, userId);
  }

  // ---------------------------------------------------------------------------
  // Listing

  /** A first page at least as long as the table holds every row of it. */
  lemma FirstPageHoldsEveryRow<T(!new)>(m: map<int, T>, sub: map<int, T>, limit: nat)
    requires sub.Keys <= m.Keys && limit >= |m|
    ensures forall k :: k in sub ==> sub[k] in Page(Rows(sub), 0, limit)
  {
    SubtableNoLarger(sub, m);
    FirstPageIsEverything(Rows(sub), limit);
  }

  /** `get_users` lists every user once the first page is long enough. */
  lemma GetUsersListsEveryUser(db: Store, email: string, limit: nat)
    requires EmailResolves(db, email) && limit >= |db.users|
    ensures forall k :: k in db.users ==> db.users[k] in GetUsers(db, email, 0, limit).reply.value
  {
    FirstPageHoldsEveryRow(db.users, db.users, limit);
  }

  /** `get_goods` lists every good whose title matches once the first page is long enough, and every good without a term. */
  lemma GetGoodsListsEveryMatch(db: Store, q: Option<string>, limit: nat)
    requires limit >= |db.goods|
    ensures forall k :: k in db.goods && (q.None? || ILike(db.goods[k].title, q.value)) ==>
      db.goods[k] in GetGoods(db, 0, limit, q).reply.value
  {
    match q
    case None =>
      FirstPageHoldsEveryRow(db.goods, db.goods, limit);
    case Some(pattern) =>
      FirstPageHoldsEveryRow(db.goods, GoodsTitled(db.goods, pattern), limit);
  }

  /** The owner-scoped listings hold every row of the caller once the first page is long enough. */
  lemma ScopedListingsAreComplete(db: Store, email: string, limit: nat)
    requires EmailResolves(db, email)
    requires limit >= |db.locations| && limit >= |db.shares| && limit >= |db.images|
    ensures forall k :: k in db.locations && CallerId(db, email) == Some(db.locations[k].userId) ==>
      db.locations[k] in GetLocations(db, email, 0, limit).reply.value
    ensures forall k :: k in db.shares && CallerId(db, email) == Some(db.shares[k].userId) ==>
      db.shares[k] in GetShares(db, email, 0, limit).reply.value
    ensures forall k :: k in db.images && CallerId(db, email) == Some(db.images[k].userId) ==>
      db.images[k] in GetImages(db, email, 0, limit).reply.value
  {
    var uid := CallerId(db, email).value;
    FirstPageHoldsEveryRow(db.locations, LocationsOf(db.locations, uid), limit);
    FirstPageHoldsEveryRow(db.shares, SharesOf(db.shares, uid), limit);
    FirstPageHoldsEveryRow(db.images, ImagesOf(db.images, uid), limit);
  }

  // ---------------------------------------------------------------------------
  // Reading back what was written

  /** Uploaded content reads back unchanged, under the MIME type the image already had. */
  lemma UploadThenFetch(db: Store, email: string, imageId: int, content: Bytes)
    requires AddImageFile(db, email, imageId, content).reply.Value?
    ensures
      var after := AddImageFile(db, email, imageId, content).store;
      var fetched := GetImage(after, email, imageId).reply;
      && fetched.Value?
      && fetched.value.content == Some(content)
      && fetched.value.mimeType == db.images[imageId].mimeType
  {
  }

  /** After `update_user`, the user read back under the new email is the payload under the same id. */
  lemma UpdateUserThenGet(db: Store, email: string, p: UserUpdate, userId: int)
    requires UpdateUser(db, email, p, userId).reply.Value?
    ensures GetUser(UpdateUser(db, email, p, userId).store, p.email, userId).reply == Value(UserFrom(userId, p))
  {
    var after := UpdateUser(db, email, p, userId).store;
    assert after.users[userId].email == p.email;
  }

  /** After `update_image`, the image read back is the payload under the same id. */
  lemma UpdateImageThenGet(db: Store, email: string, p: ImageUpdate, imageId: int)
    requires EmailResolves(db, email)
    ensures GetImage(UpdateImage(db, email, p, imageId).store, email, imageId).reply == Value(ImageFrom(imageId, p))
  {
  }

  // ---------------------------------------------------------------------------
  // Creation undone by deletion

  /** A user just added with an email nobody had is the one that email resolves to. */
  lemma NewHolderIsCaller(db: Store, after: Store, u: User)
    requires u.id !in db.users && !EmailResolves(db, u.email)
    requires after.users == db.users[u.id := u]
    ensures CallerId(after, u.email) == Some(u.id)
  {
    assert after.users[u.id].email == u.email;
    var c := CallerId(after, u.email);
    assert c.Some?;
    assert forall k :: k in after.users && k != u.id ==> k in db.users && after.users[k] == db.users[k];
    assert c.value == u.id;
  }

  lemma CreateUserThenDelete(db: Store, p: UserCreate)
    requires CreateUser(db, p).reply.Value?
    ensures
      var created := CreateUser(db, p);
      DeleteUser(created.store, p.email, created.reply.value.id) == Step(Value(1), db)
  {
    var created := CreateUser(db, p);
    var u := created.reply.value;
    assert created.store.users == db.users[u.id := u];
    NewHolderIsCaller(db, created.store, u);
    var deleted := DeleteUser(created.store, p.email, u.id);
    assert deleted.reply == Value(1);
    RemovingInsertedRestores(db.users, created.store.users, deleted.store.users, u.id, u);
    assert deleted.store == db;
    assert deleted == Step(Value(1), db);
  }

  lemma CreateGoodThenDelete(db: Store, email: string, p: GoodCreate, userId: int)
    requires CreateUserGood(db, email, p, userId).reply.Value?
    ensures
      var created := CreateUserGood(db, email, p, userId);
      DeleteGood(created.store, email, created.reply.value.id) == Step(Value(1), db)
  {
    var created := CreateUserGood(db, email, p, userId);
    var x := created.reply.value;
    assert created.store.users == db.users;
    assert CallerId(created.store, email) == Some(userId);
    var deleted := DeleteGood(created.store, email, x.id);
    assert deleted.reply == Value(1);
    RemovingInsertedRestores(db.goods, created.store.goods, deleted.store.goods, x.id, x);
    assert deleted.store == db;
  }

  lemma CreateLocationThenDelete(db: Store, email: string, p: LocationCreate, userId: int)
    requires CreateLocation(db, email, p, userId).reply.Value?
    ensures
      var created := CreateLocation(db, email, p, userId);
      DeleteLocation(created.store, email, created.reply.value.id) == Step(Value(1), db)
  {
    var created := CreateLocation(db, email, p, userId);
    var x := created.reply.value;
    assert created.store.users == db.users;
    assert CallerId(created.store, email) == Some(userId);
    var deleted := DeleteLocation(created.store, email, x.id);
    assert deleted.reply == Value(1);
    RemovingInsertedRestores(db.locations, created.store.locations, deleted.store.locations, x.id, x);
    assert deleted.store == db;
  }

  lemma CreateShareThenDelete(db: Store, email: string, p: ShareCreate, userId: int)
    requires CreateShare(db, email, p, userId).reply.Value?
    ensures
      var created := CreateShare(db, email, p, userId);
      DeleteShare(created.store, email, created.reply.value.id) == Step(Value(1), db)
  {
    var created := CreateShare(db, email, p, userId);
    var x := created.reply.value;
    assert created.store.users == db.users;
    assert CallerId(created.store, email) == Some(userId);
    var deleted := DeleteShare(created.store, email, x.id);
    assert deleted.reply == Value(1);
    RemovingInsertedRestores(db.shares, created.store.shares, deleted.store.shares, x.id, x);
    assert deleted.store == db;
  }

  lemma CreateImageThenDelete(db: Store, email: string, p: ImageCreate, userId: int)
    requires CreateImage(db, email, p, userId).reply.Value?
    ensures
      var created := CreateImage(db, email, p, userId);
      DeleteImage(created.store, email, created.reply.value.id) == Step(Value(1), db)
  {
    var created := CreateImage(db, email, p, userId);
    var x := created.reply.value;
    assert created.store.users == db.users;
    assert CallerId(created.store, email) == Some(userId);
    var deleted := DeleteImage(created.store, email, x.id);
    assert deleted.reply == Value(1);
    RemovingInsertedRestores(db.images, created.store.images, deleted.store.images, x.id, x);
    assert deleted.store == db;
  }

  // ---------------------------------------------------------------------------
  // Deletion

  /** Deleting an id the table does not hold deletes nothing and counts zero. */
  lemma DeleteMissingCountsZero(db: Store, email: string, id: int)
    requires EmailResolves(db, email)
    ensures id !in db.goods ==> DeleteGood(db, email, id) == Step(Value(0), db)
    ensures id !in db.locations ==> DeleteLocation(db, email, id) == Step(Value(0), db)
    ensures id !in db.shares ==> DeleteShare(db, email, id) == Step(Value(0), db)
    ensures id !in db.images ==> DeleteImage(db, email, id) == Step(Value(0), db)
  {
  }

  /** Once a user is deleted their email resolves no more, while the rows they owned remain. */
  lemma DeletedUserIsGone(db: Store, email: string, userId: int)
    requires Valid(db)
    requires DeleteUser(db, email, userId).reply.Value?
    ensures !EmailResolves(DeleteUser(db, email, userId).store, email)
    ensures
      var after := DeleteUser(db, email, userId).store;
      && (forall k :: k in db.goods && db.goods[k].ownerId == userId ==> k in after.goods)
      && (forall k :: k in db.locations && db.locations[k].userId == userId ==> k in after.locations)
      && (forall k :: k in db.shares && db.shares[k].userId == userId ==> k in after.shares)
      && (forall k :: k in db.images && db.images[k].userId == userId ==> k in after.images)
  {
    var after := DeleteUser(db, email, userId).store;
    forall k | k in after.users
      ensures after.users[k].email != email
    {
      assert k in db.users && k != userId && after.users[k] == db.users[k];
    }
  }

  // ---------------------------------------------------------------------------
  // Where the gate does not check ownership

  /**
   `update_good`, `update_location`, `update_share` and `update_image` only ask
   that the email resolve: a caller can overwrite a row owned by another user,
   including its owner column.
   */
  lemma UpdatesIgnoreOwnership(
    db: Store, email: string, id: int,
    gu: GoodUpdate, lu: LocationUpdate, su: ShareUpdate, iu: ImageUpdate)
    requires EmailResolves(db, email)
    ensures id in db.goods && CallerId(db, email) != Some(db.goods[id].ownerId) ==>
      UpdateGood(db, email, gu, id).store.goods[id].ownerId == gu.ownerId
    ensures id in db.locations && CallerId(db, email) != Some(db.locations[id].userId) ==>
      UpdateLocation(db, email, lu, id).store.locations[id].userId == lu.userId
    ensures id in db.shares && CallerId(db, email) != Some(db.shares[id].userId) ==>
      UpdateShare(db, email, su, id).store.shares[id].userId == su.userId
    ensures id in db.images && CallerId(db, email) != Some(db.images[id].userId) ==>
      UpdateImage(db, email, iu, id).store.images[id].userId == iu.userId
  {
  }

  /** `get_user` and `get_image` hand out any user's or any image's row to any caller whose email resolves. */
  lemma ReadsIgnoreOwnership(db: Store, email: string, userId: int, imageId: int)
    requires EmailResolves(db, email)
    ensures userId in db.users ==> GetUser(db, email, userId).reply == Value(db.users[userId])
    ensures imageId in db.images ==> GetImage(db, email, imageId).reply == Value(db.images[imageId])
  {
  }
}
