# Sharegood data access layer, modelled in Dafny

Sharegood is a proof-of-concept backend. Users lend goods to each other, and the
backend records where goods are, which shares (lending periods) exist, and which
images belong to them. This project models its data access layer, `db/crud.py`,
together with the five tables it works on, from `db/models.py`. A caller is
identified only by an email address. Most operations first look that email up
among the users. Some then also check that the email belongs to the user id the
caller names. Others only check that the email belongs to somebody.

The database is an immutable `Store` with one map per table, from primary-key id
to row (`Models`). Every crud function is a pure function (`Crud`). It takes the
store and the call's arguments and returns a `Step`: what the Python function
hands back, together with the store after the call. The reply is one of:

- `Value(v)`: the function returned `v`.
- `Null`: the function returned `None`.
- `Raised(fault)`: the function raised an exception. The transaction is then
  never committed, so the store is unchanged.

The modules:

- `Wrappers`: `Option`, for nullable columns and lookups that can miss.
- `Tables`: ascending-id row order, fresh ids, and cardinality facts about tables.
- `Paging`: `offset(skip).limit(limit)`.
- `Text`: the case-insensitive title comparison of SQL `ILIKE`, and a substring
  variant of it.
- `Models`: rows, create and update payloads, column defaults, the store, and its
  invariant `Valid`. `Valid` means every row sits under its own id, and no two
  users share an email or a non-NULL name.
- `Crud`: the operations.
- `Properties`: lemmas that relate several operations.
- `Findings`: four defects of the source, each modelled as written and corrected.

Four behaviours of the code are easy to misread:

- The title filter of `get_goods` (db/crud.py:34) calls `ilike(q)` without
  wildcards. It compares the whole title, not a substring.
- `create_user` (db/crud.py:25) never sets a name, so on creation only the email
  can collide with another user.
- When the email check fails (db/crud.py:41-42 and the matching lines of the
  other gated operations), the operation returns `None`. It raises nothing and
  uses no separate authorization signal.
- `delete_good` (db/crud.py:207) cannot delete anything as written (see Findings).

## Model

| member | source | states |
|---|---|---|
| Crud.CallerId | db/crud.py:7-9 | The email gate finds a user exactly when some user has the email. The user it finds has that email and the least such id, which is the row `.first()` returns. |
| Properties.CallerIsTheHolder | db/models.py:12 | Emails are unique, so an email resolves to `userId` exactly when row `userId` holds that email. |
| Crud.GetUser | db/crud.py:6-10 | Returns the row `userId` exactly when the email resolves and the row exists, whoever owns it. Otherwise returns None. Writes nothing. |
| Crud.GetUserByEmail | db/crud.py:13-14 | Returns a user with that email exactly when one exists, and None otherwise. |
| Crud.GetUsers | db/crud.py:17-21 | None exactly when the email does not resolve. Otherwise returns at most `limit` rows, all of them users. |
| Properties.GetUsersListsEveryUser | db/crud.py:21 | A first page at least as long as the table lists every user, not only the caller. |
| Crud.CreateUser | db/crud.py:24-29 | Corrected create. Raises IntegrityError and writes nothing when the email is taken. Otherwise inserts exactly one user under a fresh id, with the given email and password, a NULL name and both flags true (defaults of db/models.py:14-15). No other table changes, and `Valid` is preserved. |
| Crud.NewUserKeepsValid | db/models.py:11-12 | Inserting a user with an unused id, an unused email and a NULL name keeps both unique constraints. |
| Crud.UpdateUser | db/crud.py:116-125 | None and no write unless the email resolves to `userId`. Raises IntegrityError and writes nothing when the payload's email or non-NULL name belongs to another user. Otherwise row `userId` becomes exactly the payload under the same id. Nothing else changes, and `Valid` is preserved. |
| Crud.DeleteUser | db/crud.py:212-218 | Deletes only when the email resolves to `userId`, then returns 1 and removes just that row. Goods, locations, shares and images stay, and `Valid` is preserved. |
| Properties.DeletedUserIsGone | db/crud.py:212-218 | After a user deletes themself, their email resolves to nobody. Every row they owned in the other four tables is still present. |
| Crud.GetGoods | db/crud.py:32-36 | Not gated. Returns at most `limit` goods of the table. With a term, every good returned has a title equal to the term up to ASCII case. |
| Properties.GetGoodsListsEveryMatch | db/crud.py:32-36 | A long enough first page lists every good whose title matches the term, or every good when there is no term. |
| Text.ILikeIsLoweredEquality | db/crud.py:34 | The character-by-character `ILIKE` comparison holds exactly when both strings are equal after lowering ASCII letters. |
| Crud.CreateUserGood | db/crud.py:39-47 | Inserts only when the email resolves to `userId`, and otherwise returns None with no write. On success there is exactly one new good, under an unused id, with `owner_id = userId`, the payload's title and description, and no location. Nothing else changes. |
| Crud.CreateLocation | db/crud.py:50-58 | Same gate as `create_user_good`. On success there is exactly one new location with `user_id = userId`, the payload's fields and `public` true (default of db/models.py:29). Nothing else changes. |
| Crud.CreateShare | db/crud.py:68-76 | Same gate. On success there is exactly one new share with `user_id = userId` and the payload's good and start date. Its end dates and location are unset. Nothing else changes. |
| Crud.CreateImage | db/crud.py:86-94 | Same gate. On success there is exactly one new image with `user_id = userId`, the payload's name and MIME type "image/jpeg" (default of db/models.py:63). It has no url, content, good or share. Nothing else changes. |
| Properties.CreateNeedsOwnEmail | db/crud.py:39-94 | In a valid store, each of the four create operations succeeds exactly when row `userId` holds the caller's email. |
| Crud.GetLocations | db/crud.py:61-65 | None exactly when the email does not resolve. Otherwise returns at most `limit` locations, each with `user_id` equal to the caller's id. |
| Crud.GetShares | db/crud.py:79-83 | None exactly when the email does not resolve. Otherwise returns at most `limit` shares, each with `user_id` equal to the caller's id. |
| Crud.GetImages | db/crud.py:221-225 | None exactly when the email does not resolve. Otherwise returns at most `limit` images, each with `user_id` equal to the caller's id. |
| Properties.ScopedListingsAreComplete | db/crud.py:61-65 | A long enough first page of locations lists every location the caller owns. The same holds for shares (db/crud.py:79-83) and images (db/crud.py:221-225). |
| Paging.Page | db/crud.py:21 | A page holds at most `limit` rows, namely the rows at positions `skip`, `skip + 1`, and so on. It is empty once `skip` passes the end. |
| Paging.PagesTile | db/crud.py:21 | Two consecutive pages together are the page that spans both. |
| Tables.SortedKeys | db/models.py:10 | The ids of a table listed in strictly ascending order, each exactly once. |
| Tables.FreshId | db/models.py:10 | An inserted row gets an id, at least 1, that is larger than every id in the table, so no row uses it. |
| Crud.AddImageFile | db/crud.py:97-106 | Corrected upload. Writes only when the caller owns image `imageId`, and answers None with no write for a missing or foreign image. On success only the image's `content` changes, every other field and row stays, and the ids stay the same. |
| Crud.GetImage | db/crud.py:109-113 | Returns image `imageId` exactly when the email resolves and the image exists, whoever owns it. |
| Properties.UploadThenFetch | db/crud.py:97-113 | After a successful upload, fetching the image returns the uploaded content under the MIME type the image already had. |
| Crud.UpdateGood | db/crud.py:128-137 | None exactly when the email does not resolve. Otherwise the good `goodId` (created if absent) becomes exactly the payload under that id. Nothing else changes. |
| Crud.UpdateImage | db/crud.py:140-149 | None exactly when the email does not resolve. Otherwise the image `imageId` (created if absent) becomes exactly the payload under that id. Nothing else changes. |
| Crud.UpdateShare | db/crud.py:152-161 | None exactly when the email does not resolve. Otherwise the share `shareId` (created if absent) becomes exactly the payload under that id. Nothing else changes. |
| Crud.UpdateLocation | db/crud.py:164-173 | None exactly when the email does not resolve. Otherwise the location `locationId` (created if absent) becomes exactly the payload under that id. Nothing else changes. |
| Properties.UpdatesIgnoreOwnership | db/crud.py:128-173 | Any caller whose email resolves can overwrite another user's good, location, share or image, including its owner column. |
| Properties.ReadsIgnoreOwnership | db/crud.py:109-113 | Any caller whose email resolves reads any image, and any user (db/crud.py:6-10). |
| Properties.UpdateUserThenGet | db/crud.py:116-125 | After `update_user`, reading the user under the payload's email gives back the payload under the same id. |
| Properties.UpdateImageThenGet | db/crud.py:140-149 | After `update_image`, reading the image gives back the payload under the same id. |
| Models.UserFrom | db/crud.py:120 | The row built from an update payload has the given id, and its other columns are the payload's. |
| Models.GoodFrom | db/crud.py:132 | The row built from an update payload has the given id, and its other columns are the payload's. |
| Models.ImageFrom | db/crud.py:144 | The row built from an update payload has the given id, and its other columns are the payload's. |
| Models.ShareFrom | db/crud.py:156 | The row built from an update payload has the given id, and its other columns are the payload's. |
| Models.LocationFrom | db/crud.py:168 | The row built from an update payload has the given id, and its other columns are the payload's. |
| Crud.DeleteImage | db/crud.py:176-182 | None exactly when the email does not resolve. Otherwise returns 1 and removes exactly image `imageId` when the caller owns it, and returns 0 with no write when not. The count equals the rows removed. Only the target can disappear, and only when it is the caller's. |
| Crud.DeleteLocation | db/crud.py:185-191 | Same as `delete_image`, for locations and their `user_id`. |
| Crud.DeleteShare | db/crud.py:194-200 | Same as `delete_image`, for shares and their `user_id`. |
| Crud.DeleteGood | db/crud.py:203-209 | Corrected delete, the same as `delete_image` but scoped by the good's `owner_id` (db/models.py:47). |
| Properties.DeleteMissingCountsZero | db/crud.py:176-209 | Deleting an id the table lacks returns 0 and writes nothing. |
| Properties.CreateGoodThenDelete | db/crud.py:203-209 | With the corrected delete, deleting, with the same email, a good just created gives back count 1 and the original store. |
| Properties.CreateLocationThenDelete | db/crud.py:185-191 | Deleting a location just created gives back count 1 and the original store. |
| Properties.CreateShareThenDelete | db/crud.py:194-200 | Deleting a share just created gives back count 1 and the original store. |
| Properties.CreateImageThenDelete | db/crud.py:176-182 | Deleting an image just created gives back count 1 and the original store. |
| Properties.CreateUserThenDelete | db/crud.py:24-29 | A user just created by the corrected create can delete themself with their email. That gives back count 1 and the original store. |
| Properties.UnresolvedEmailChangesNothing | db/crud.py:6-225 | Every email-gated operation returns None and leaves the store unchanged when no user has the email. |
| Findings.CreateUserAsWritten | db/crud.py:24-29 | As written, `create_user` always raises and never writes. |
| Findings.CreateUserAsWrittenRegistersNobody | db/crud.py:25 | On an empty database, the source's `create_user` raises TypeError, while the corrected one registers the user. |
| Findings.AddImageFileAsWritten | db/crud.py:97-106 | As written: None when the email does not resolve. AttributeError when the image is missing or foreign. The corrected upload otherwise. |
| Findings.AddImageFileToMissingImageRaises | db/crud.py:101-102 | Uploading to a missing image raises as written and answers None when corrected. |
| Findings.AddImageFileNeverRaises | db/crud.py:97-106 | The corrected upload never raises, and writes nothing unless the caller owns the image. |
| Findings.DeleteGoodAsWritten | db/crud.py:203-209 | As written, `delete_good` never deletes. It returns None when the email does not resolve and raises otherwise. |
| Findings.DeleteOwnGoodRaises | db/crud.py:207 | An owner deleting their own good gets AttributeError and the good stays. The corrected delete removes it. |
| Findings.DefaultSearchListsOnlyUntitledGoods | db/crud.py:32-34 | With the default term "", `get_goods` returns only goods whose title is empty. |
| Findings.DefaultSearchHidesBike | db/crud.py:32-34 | A good titled "Bike" is missing from the default listing, but present when no term is given. |
| Findings.GetGoodsContaining | db/crud.py:32-36 | Corrected search. Returns at most `limit` goods, and with a term each has the term somewhere in its title, up to ASCII case. |
| Findings.ContainingListsEveryMatch | db/crud.py:32-36 | With the corrected search, a first page at least as long as the table lists every good whose title contains the term, up to ASCII case. |
| Findings.DefaultSearchListsEveryGood | db/crud.py:32-36 | With the corrected search, the default term lists the same page as no term. |
| Findings.SearchFindsWholeTitleMatches | db/crud.py:34 | The corrected search finds every good the whole-title search finds. |
| Text.ContainsILikeFindsWindow | db/crud.py:34 | The recursive substring search succeeds exactly when some stretch of the title matches the term. |

## Left out

- HTTP routing, CORS, the per-request session, and the mapping of None to HTTP
  errors in `main.py`. They are outside the data access layer, and `main.py`
  calls a different revision of the crud functions.
- Base64 encoding and decoding of image content at the HTTP boundary. Content is
  an opaque byte sequence.
- Commit, refresh and rollback, transaction isolation, and concurrent writers.
  Each call is one atomic step on the store.
- SQL `LIKE` wildcards (`%`, `_`), collations and non-ASCII case folding. A search
  term is compared literally, ignoring only the case of ASCII letters.
- Floating-point latitude and longitude, and DateTime values. They are carried as
  uninterpreted values.
- Password hashing and payload validation. The corrected `create_user` stores the
  password as given in the password column.
- Id generation. A new row gets one more than the largest id in its table, or 1
  when no id in it is positive. Update operations can upsert any id, including a
  negative one. The contracts rely only on the new id being unused, at least 1,
  and above every id already in the table.
- SQL row order. Lists come back in ascending id order.
- Negative `skip` or `limit`. Both are natural numbers here, because the source
  leaves negative values to the database.
- Foreign-key enforcement. References between tables are plain integers, and
  deleting a user leaves their rows in place, as the source does.
- NULL in columns that the source always fills. Only the columns the source can
  leave NULL are optional.
- `main.py`'s pre-check of a taken email before `create_user`. The corrected
  `create_user` raises IntegrityError, as the unique constraint would.
- Crud.GetUsers: the contract bounds the page and says where its rows come from.
  Which rows a page at offset `skip` holds is stated by Paging.Page over
  Tables.SortedKeys order, and is not restated here.
- Crud.GetGoods: same as Crud.GetUsers, for goods.
- Crud.GetLocations: same as Crud.GetUsers, for the caller's locations.
- Crud.GetShares: same as Crud.GetUsers, for the caller's shares.
- Crud.GetImages: same as Crud.GetUsers, for the caller's images.
- Findings.GetGoodsContaining: same as Crud.GetGoods, for the substring search.

## Findings

| source | as written | input that shows it | evidently intended | confidence | as-written member | corrected member |
|---|---|---|---|---|---|---|
| db/crud.py:25 | `models.User(**user.dict())` passes the key `password`. The User model has no such column (db/models.py:13), so the constructor raises TypeError and no user is ever created. | Any payload, e.g. email "a@x.com", on an empty database | Store the password in the password column and insert the user | high; not executed | Findings.CreateUserAsWritten | Crud.CreateUser |
| db/crud.py:101-102 | The query result is dereferenced without a check. For a missing image, or one owned by another user, it is None and `.content = ...` raises AttributeError. | User "a@x.com" uploading to image 7 of a store without images | Answer None, like the email gate does | high; not executed | Findings.AddImageFileAsWritten | Crud.AddImageFile |
| db/crud.py:207 | Filters on `Good.user_id`, but the owner column is `owner_id` (db/models.py:47). Reading the missing attribute raises AttributeError, so no good can be deleted. | User 1 deleting their own good 1 | Filter on `owner_id` | high; not executed | Findings.DeleteGoodAsWritten | Crud.DeleteGood |
| db/crud.py:32-34 | The default term `q = ""` goes to `ilike` without wildcards, so the default listing shows only goods with an empty title. | A store with one good titled "Bike", listed with the default term | Search for the term anywhere in the title, so the empty term lists everything | medium; not executed | Crud.GetGoods | Findings.GetGoodsContaining |

The first three corrected members are the ones `Crud` and `Properties` use.
`Crud.GetGoods` keeps the behaviour as written, because the whole-title match is
what the source does. `Findings.GetGoodsContaining` states the evident intent
beside it.
