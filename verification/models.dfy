/**
 The five tables of the sharegood database (users, locations, goods, images,
 shares), their column defaults and constraints, the request payloads the data
 access layer accepts, and the store that holds one map per table.
 */
module Models {
  import opened Wrappers

  newtype byte = x: int | 0 <= x < 256

  /** Binary column content (the `LargeBinary` image content), uninterpreted. */
  type Bytes = seq<byte>

  /** A `Float` column value (latitude, longitude), carried without interpretation. */
  datatype Float = Float(raw: int)

  /** A `DateTime` column value, carried without interpretation. */
  datatype DateTime = DateTime(raw: int)

  /** Column default of `images.mime_type`. */
  const DefaultMimeType: string := "image/jpeg"

  // ---------------------------------------------------------------------------
  // Records: one row of each table. `id` is the primary key.

  datatype User = User(
    id: int,
    name: Option<string>,
    email: string,
    hashedPassword: string,
    isActive: bool,
    public: bool)

  datatype Location = Location(
    id: int,
    userId: int,
    name: string,
    public: bool,
    zip: string,
    city: string,
    address: string,
    lat: Float,
    lon: Float)

  datatype Good = Good(
    id: int,
    title: string,
    description: Option<string>,
    ownerId: int,
    locationId: Option<int>)

  datatype Image = Image(
    id: int,
    userId: int,
    name: string,
    url: Option<string>,
    content: Option<Bytes>,
    mimeType: string,
    goodId: Option<int>,
    shareId: Option<int>)

  datatype Share = Share(
    id: int,
    userId: int,
    goodId: int,
    startDate: DateTime,
    plannedEndDate: Option<DateTime>,
    endDate: Option<DateTime>,
    locationId: Option<int>)

  // ---------------------------------------------------------------------------
  // Create payloads: the fields a client supplies when a row is created.

  datatype UserCreate = UserCreate(email: string, password: string)

  datatype GoodCreate = GoodCreate(title: string, description: Option<string>)

  datatype LocationCreate = LocationCreate(
    name: string, zip: string, city: string, address: string, lat: Float, lon: Float)

  datatype ImageCreate = ImageCreate(name: string)

  datatype ShareCreate = ShareCreate(goodId: int, startDate: DateTime)

  /** A new user row: the password is stored in the password column, both flags take their column defaults. */
  function NewUser(id: int, p: UserCreate): User {
    User(id, None, p.email, p.password, true, true)
  }

  function NewGood(id: int, ownerId: int, p: GoodCreate): Good {
    Good(id, p.title, p.description, ownerId, None)
  }

  /** A new location row: `public` takes its column default. */
  function NewLocation(id: int, userId: int, p: LocationCreate): Location {
    Location(id, userId, p.name, true, p.zip, p.city, p.address, p.lat, p.lon)
  }

  /** A new image row: no url and no content yet, `mime_type` takes its column default. */
  function NewImage(id: int, userId: int, p: ImageCreate): Image {
    Image(id, userId, p.name, None, None, DefaultMimeType, None, None)
  }

  function NewShare(id: int, userId: int, p: ShareCreate): Share {
    Share(id, userId, p.goodId, p.startDate, None, None, None)
  }

  // ---------------------------------------------------------------------------
  // Update payloads: every column of the entity except its id. An update writes
  // all of them onto the row with the given id.

  datatype UserUpdate = UserUpdate(
    name: Option<string>, email: string, hashedPassword: string, isActive: bool, public: bool)

  datatype GoodUpdate = GoodUpdate(
    title: string, description: Option<string>, ownerId: int, locationId: Option<int>)

  datatype LocationUpdate = LocationUpdate(
    userId: int, name: string, public: bool, zip: string, city: string, address: string,
    lat: Float, lon: Float)

  datatype ImageUpdate = ImageUpdate(
    userId: int, name: string, url: Option<string>, content: Option<Bytes>, mimeType: string,
    goodId: Option<int>, shareId: Option<int>)

  datatype ShareUpdate = ShareUpdate(
    userId: int, goodId: int, startDate: DateTime, plannedEndDate: Option<DateTime>,
    endDate: Option<DateTime>, locationId: Option<int>)

  /** The non-id columns of a row. */
  function UserFields(u: User): UserUpdate {
    UserUpdate(u.name, u.email, u.hashedPassword, u.isActive, u.public)
  }

  function GoodFields(g: Good): GoodUpdate {
    GoodUpdate(g.title, g.description, g.ownerId, g.locationId)
  }

  function LocationFields(l: Location): LocationUpdate {
    LocationUpdate(l.userId, l.name, l.public, l.zip, l.city, l.address, l.lat, l.lon)
  }

  function ImageFields(i: Image): ImageUpdate {
    ImageUpdate(i.userId, i.name, i.url, i.content, i.mimeType, i.goodId, i.shareId)
  }

  function ShareFields(s: Share): ShareUpdate {
    ShareUpdate(s.userId, s.goodId, s.startDate, s.plannedEndDate, s.endDate, s.locationId)
  }

  /** The row with primary key `id` whose other columns are the payload's: `Entity(**payload.dict(), id=id)`. */
  function UserFrom(id: int, p: UserUpdate): (u: User)
    ensures u.id == id && UserFields(u) == p
  {
    User(id, p.name, p.email, p.hashedPassword, p.isActive, p.public)
  }

  function GoodFrom(id: int, p: GoodUpdate): (g: Good)
    ensures g.id == id && GoodFields(g) == p
  {
    Good(id, p.title, p.description, p.ownerId, p.locationId)
  }

  function LocationFrom(id: int, p: LocationUpdate): (l: Location)
    ensures l.id == id && LocationFields(l) == p
  {
    Location(id, p.userId, p.name, p.public, p.zip, p.city, p.address, p.lat, p.lon)
  }

  function ImageFrom(id: int, p: ImageUpdate): (i: Image)
    ensures i.id == id && ImageFields(i) == p
  {
    Image(id, p.userId, p.name, p.url, p.content, p.mimeType, p.goodId, p.shareId)
  }

  function ShareFrom(id: int, p: ShareUpdate): (s: Share)
    ensures s.id == id && ShareFields(s) == p
  {
    Share(id, p.userId, p.goodId, p.startDate, p.plannedEndDate, p.endDate, p.locationId)
  }

  /** A row is determined by its id and its other columns: rebuilding it from them gives it back. */
  lemma FieldsDetermineRow(u: User, g: Good, l: Location, i: Image, s: Share)
    ensures UserFrom(u.id, UserFields(u)) == u
    ensures GoodFrom(g.id, GoodFields(g)) == g
    ensures LocationFrom(l.id, LocationFields(l)) == l
    ensures ImageFrom(i.id, ImageFields(i)) == i
    ensures ShareFrom(s.id, ShareFields(s)) == s
  {
  }

  // ---------------------------------------------------------------------------
  // The store.

  datatype Store = Store(
    users: map<int, User>,
    goods: map<int, Good>,
    locations: map<int, Location>,
    shares: map<int, Share>,
    images: map<int, Image>)

  datatype Table = Users | Goods | Locations | Shares | Images

  /** Every row sits under its own primary key. */
  ghost predicate KeyedById(db: Store) {
    && (forall k :: k in db.users ==> db.users[k].id == k)
    && (forall k :: k in db.goods ==> db.goods[k].id == k)
    && (forall k :: k in db.locations ==> db.locations[k].id == k)
    && (forall k :: k in db.shares ==> db.shares[k].id == k)
    && (forall k :: k in db.images ==> db.images[k].id == k)
  }

  /** The unique constraints on `users.email` and `users.name`; NULL names never collide. */
  ghost predicate UniqueUserFields(users: map<int, User>) {
    forall a, b :: a in users && b in users && a != b ==>
      && users[a].email != users[b].email
      && (users[a].name.None? || users[a].name != users[b].name)
  }

  /** The invariant the database maintains. */
  ghost predicate Valid(db: Store) {
    KeyedById(db) && UniqueUserFields(db.users)
  }

  /** Some user has this email address. */
  ghost predicate EmailResolves(db: Store, email: string) {
    exists k :: k in db.users && db.users[k].email == email
  }

  /** Every table other than `t` is the same in both stores. */
  ghost predicate SameExcept(db: Store, db': Store, t: Table) {
    && (t == Users || db'.users == db.users)
    && (t == Goods || db'.goods == db.goods)
    && (t == Locations || db'.locations == db.locations)
    && (t == Shares || db'.shares == db.shares)
    && (t == Images || db'.images == db.images)
  }

  /** `after` is `before` with one new row `rec` under an id `before` did not use. */
  ghost predicate Inserted<T>(before: map<int, T>, after: map<int, T>, id: int, rec: T) {
    && id !in before
    && after.Keys == before.Keys + {id}
    && after[id] == rec
    && (forall k :: k in before ==> after[k] == before[k])
  }

  /** `after` holds `rec` under `id`, which it may or may not have held before, and nothing else differs. */
  ghost predicate Upserted<T>(before: map<int, T>, after: map<int, T>, id: int, rec: T) {
    && after.Keys == before.Keys + {id}
    && after[id] == rec
    && (forall k :: k in before && k != id ==> after[k] == before[k])
  }

  /** `after` is `before` without the row under `id`, which `before` had. */
  ghost predicate Removed<T>(before: map<int, T>, after: map<int, T>, id: int) {
    && id in before
    && after.Keys == before.Keys - {id}
    && (forall k :: k in after ==> after[k] == before[k])
  }

  /** Adding a row under an id the table does not use inserts exactly that row. */
  lemma InsertingFreshId<T>(m: map<int, T>, id: int, rec: T)
    requires id !in m
    ensures Inserted(m, m[id := rec], id, rec)
  {
  }

  /** Removing the row just inserted gives back the table as it was. */
  lemma RemovingInsertedRestores<T>(before: map<int, T>, mid: map<int, T>, after: map<int, T>, id: int, rec: T)
    requires Inserted(before, mid, id, rec) && Removed(mid, after, id)
    ensures after == before
  {
    assert after.Keys == before.Keys;
    assert forall k :: k in after ==> after[k] == mid[k] == before[k];
  }
}
