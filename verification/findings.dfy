/**
 Four places where the data access layer, as written, does not do what it is
 evidently meant to do. Each is modelled twice: as written, with a lemma that
 shows the discrepancy on a concrete input, and corrected, with the intended
 property proved. The operations in `Crud` are the corrected ones, except
 `GetGoods`, which keeps the whole-title match the source performs.
 */
module Findings {
  import opened Wrappers
  import opened Models
  import opened Paging
  import opened Tables
  import opened Text
  import opened Crud
  import opened Properties

  /** A store holding one user, "a@x.com" under id 1, and the good "Bike" that user owns. */
  function Sample(): (db: Store)
    ensures Valid(db)
  {
    Store(
      map[1 := User(1, None, "a@x.com", "secret", true, true)],
      map[1 := Good(1, "Bike", None, 1, None)],
      map[], map[], map[])
  }

  lemma SampleResolves()
    ensures CallerId(Sample(), "a@x.com") == Some(1)
  {
    CallerIsTheHolder(Sample(), "a@x.com", 1);
  }

  // ---------------------------------------------------------------------------
  // create_user builds the row with `User(**user.dict())`. The payload holds a
  // `password` key, and the User model has no column of that name, so the
  // constructor raises TypeError before anything is inserted.

  function CreateUserAsWritten(db: Store, p: UserCreate): (r: Step<User>)
    ensures r.store == db && r.reply.Raised?
  {
    Step(Raised(TypeError), db)
  }

  /** Even on an empty database with a fresh email, the source registers nobody; the corrected operation registers the user. */
  lemma CreateUserAsWrittenRegistersNobody(p: UserCreate)
    ensures
      var empty := Store(map[], map[], map[], map[], map[]);
      && CreateUserAsWritten(empty, p).reply == Raised(TypeError)
      && CreateUser(empty, p).reply.Value?
      && CreateUser(empty, p).reply.value.email == p.email
  {
  }

  // ---------------------------------------------------------------------------
  // add_image_file assigns `db_image.content` without checking that the query
  // found an image. For a missing image, or one owned by another user, the
  // query yields None and the assignment raises AttributeError.

  function AddImageFileAsWritten(db: Store, email: string, imageId: int, content: Bytes): (r: Step<Image>)
    ensures !EmailResolves(db, email) ==> r == Step(Null, db)
    ensures EmailResolves(db, email) && !OwnsImage(db, email, imageId) ==> r == Step(Raised(AttributeError), db)
    ensures OwnsImage(db, email, imageId) ==> r == AddImageFile(db, email, imageId, content)
  {
    match CallerId(db, email)
    case None => Step(Null, db)
    case Some(uid) =>
      if imageId in db.images && db.images[imageId].userId == uid then
        var i := db.images[imageId].(content := Some(content));
        Step(Value(i), db.(images := db.images[imageId := i]))
      else
        Step(Raised(AttributeError), db)
  }

  /** Uploading to image 7 of the sample store, which has no images, raises as written and answers None when corrected. */
  lemma AddImageFileToMissingImageRaises()
    ensures AddImageFileAsWritten(Sample(), "a@x.com", 7, [1, 2, 3]).reply == Raised(AttributeError)
    ensures AddImageFile(Sample(), "a@x.com", 7, [1, 2, 3]) == Step(Null, Sample())
  {
    SampleResolves();
  }

  /** Corrected, an upload never raises, and it touches nothing unless the caller owns the image. */
  lemma AddImageFileNeverRaises(db: Store, email: string, imageId: int, content: Bytes)
    ensures !AddImageFile(db, email, imageId, content).reply.Raised?
    ensures !OwnsImage(db, email, imageId) ==> AddImageFile(db, email, imageId, content).store == db
  {
  }

  // ---------------------------------------------------------------------------
  // delete_good filters on `Good.user_id`, but the goods table keys its owner
  // as `owner_id`. Reading the missing class attribute raises AttributeError,
  // so no good is ever deleted. The evident intent is to filter on `owner_id`.

  function DeleteGoodAsWritten(db: Store, email: string, goodId: int): (r: Step<nat>)
    ensures r.store == db && !r.reply.Value?
    ensures r.reply.Null? <==> !EmailResolves(db, email)
  {
    if CallerId(db, email).None? then Step(Null, db)
    else Step(Raised(AttributeError), db)
  }

  /** The owner of the sample's good cannot delete it as written; corrected, the good goes. */
  lemma DeleteOwnGoodRaises()
    ensures DeleteGoodAsWritten(Sample(), "a@x.com", 1).reply == Raised(AttributeError)
    ensures 1 in DeleteGoodAsWritten(Sample(), "a@x.com", 1).store.goods
    ensures DeleteGood(Sample(), "a@x.com", 1).reply == Value(1)
    ensures 1 !in DeleteGood(Sample(), "a@x.com", 1).store.goods
  {
    SampleResolves();
  }

  // ---------------------------------------------------------------------------
  // get_goods defaults its search term to "" and matches it with
  // `title.ilike(q)`. Without wildcards that is a whole-title comparison, so
  // the default listing shows only goods with an empty title. The evident
  // intent is a substring search, under which the empty term matches all.

  /** The default search term of `get_goods`. */
  const DefaultSearch: string := ""

  /** As written, the default listing holds only goods whose title is empty. */
  lemma DefaultSearchListsOnlyUntitledGoods(db: Store, skip: nat, limit: nat)
    ensures forall g :: g in GetGoods(db, skip, limit, Some(DefaultSearch)).reply.value ==> g.title == ""
  {
    forall g | g in GetGoods(db, skip, limit, Some(DefaultSearch)).reply.value
      ensures g.title == ""
    {
      EmptyPatternMatchesOnlyEmpty(g.title);
    }
  }

  /** The sample's "Bike" is missing from the default listing though a listing without a term shows it. */
  lemma DefaultSearchHidesBike()
    ensures Sample().goods[1] !in GetGoods(Sample(), 0, 100, Some(DefaultSearch)).reply.value
    ensures Sample().goods[1] in GetGoods(Sample(), 0, 100, None).reply.value
  {
    DefaultSearchListsOnlyUntitledGoods(Sample(), 0, 100);
    GetGoodsListsEveryMatch(Sample(), None, 100);
  }

  /** The goods with `q` somewhere in their title: `filter(Good.title.ilike('%' + q + '%'))`. */
  function GoodsContaining(goods: map<int, Good>, q: string): (r: map<int, Good>)
    ensures forall k :: k in r <==> k in goods && ContainsILike(goods[k].title, q)
    ensures forall k :: k in r ==> r[k] == goods[k]
    ensures forall g :: g in r.Values ==> g in goods.Values && ContainsILike(g.title, q)
  {
    map k | k in goods && ContainsILike(goods[k].title, q) :: goods[k]
  }

  /** `get_goods` searching for the term anywhere in the title, case-insensitively. */
  function GetGoodsContaining(db: Store, skip: nat, limit: nat, q: Option<string>): (r: Step<seq<Good>>)
    ensures r.store == db && r.reply.Value?
    ensures |r.reply.value| <= limit
    ensures forall g :: g in r.reply.value ==> g in db.goods.Values
    ensures q.Some? ==> forall g :: g in r.reply.value ==> ContainsILike(g.title, q.value)
  {
    match q
    case Some(term) => Step(Value(Page(Rows(GoodsContaining(db.goods, term)), skip, limit)), db)
    case None => Step(Value(Page(Rows(db.goods), skip, limit)), db)
  }

  /** Corrected, a long enough first page lists every good whose title contains the term. */
  lemma ContainingListsEveryMatch(db: Store, q: string, limit: nat)
    requires limit >= |db.goods|
    ensures forall k :: k in db.goods && ContainsILike(db.goods[k].title, q) ==>
      db.goods[k] in GetGoodsContaining(db, 0, limit, Some(q)).reply.value
  {
    FirstPageHoldsEveryRow(db.goods, GoodsContaining(db.goods, q), limit);
  }

  /** Corrected, the default search lists the same page as no search at all. */
  lemma DefaultSearchListsEveryGood(db: Store, skip: nat, limit: nat)
    ensures GetGoodsContaining(db, skip, limit, Some(DefaultSearch)) == GetGoods(db, skip, limit, None)
  {
    forall k | k in db.goods
      ensures ContainsILike(db.goods[k].title, DefaultSearch)
    {
      EmptyTermIsEverywhere(db.goods[k].title);
    }
    assert GoodsContaining(db.goods, DefaultSearch) == db.goods;
  }

  /** Every good the whole-title search finds, the substring search finds too. */
  lemma SearchFindsWholeTitleMatches(db: Store, q: string, limit: nat)
    requires limit >= |db.goods|
    ensures forall g :: g in GetGoods(db, 0, limit, Some(q)).reply.value ==>
      g in GetGoodsContaining(db, 0, limit, Some(q)).reply.value
  {
    var found := GoodsContaining(db.goods, q);
    forall k | k in db.goods && ILike(db.goods[k].title, q)
      ensures k in found
    {
      WholeMatchIsContained(db.goods[k].title, q);
    }
    FirstPageHoldsEveryRow(db.goods, found, limit);
  }

  /** A title that matches the whole term contains it. */
  lemma WholeMatchIsContained(title: string, q: string)
    requires ILike(title, q)
    ensures ContainsILike(title, q)
  {
    ILikeSameLength(title, q);
    assert title[..|q|] == title;
  }
}
