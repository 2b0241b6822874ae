# Marketplace backend model

A Dafny model of the server side of a small second-hand marketplace: an
Express application over an SQLite database with three tables (`users`,
`products`, `favorites`). Users register and log in (bcrypt-hashed
passwords, a JWT carrying the public user), sellers list, edit and delete
their products, anyone browses a paginated, searchable, sortable product
listing, and signed-in users keep a list of favorite products.

The database and the route handlers are one class, `Marketplace.Store`. Its
fields are the three tables (as sequences of rows in insertion order) and the
three `AUTOINCREMENT` counters; `Store.Valid()` is the schema's integrity:
ascending unique ids no larger than their counter, unique usernames, emails
and (user, product) favorite pairs, every favorite pointing at an existing
user and product, every seller being an existing user, and the row-level
bounds validation guarantees. Each handler is a method that takes the
request's parameters and body, the authenticated caller's id where the route
needs one, and answers with a `Reply` (a status and a body, or a status and
its error messages). The pure parts — page/limit normalisation, the `WHERE`
clause, the sort, the joins, the validators, the row built by an insert or an
update — are functions with their own contracts in the modules beside it.

Modules: `Http` (options, statuses, replies), `Text` (trim, ASCII
case-insensitive substring search), `Rows` (SQL `WHERE`, `.get()` and
`LIMIT`/`OFFSET` over a table), `Ordering` (keys, directions and a sort),
`Pagination`, `Credentials` (bcrypt and the token, idealised), `Schema`
(rows, integrity, the table updates and that each preserves integrity),
`Validation` (express-validator chains), `Queries` (the listing queries),
`Marketplace` (the store and its handlers) and `Scenarios` (properties that
span two requests).

Behaviours of the handlers worth noting:

- the favorites listing defaults to 20 rows per page, the product listing to 10;
- an update keeps the old value of a field sent with a falsy value, not only
  of a field left out, because the handler binds `value || null`; after
  validation this matters for the category, where an empty or all-blank
  category leaves the old one in place instead of clearing it;
- the update's validators carry no messages, so each failed field reports
  express-validator's default `Invalid value`;
- creating a product or a favorite for a token whose user no longer exists
  fails on the foreign key and answers 500, with nothing written;
- a listing page far enough out that `(page-1)*limit` exceeds SQLite's
  64-bit `OFFSET` makes the query fail, and the listing answers 500.

## Model

| member | source | states |
|---|---|---|
| Pagination.NormalizePage | backend/routes/products.js:11 | the page is at least 1; a missing, non-numeric or zero page is 1, any other page below 1 is 1, and a page of 1 or more is kept |
| Pagination.NormalizeLimit | backend/routes/products.js:12 | the limit is between 1 and 50; a missing, non-numeric or zero limit falls back to the route's default (10 here, 20 for favorites), others are clamped to 1..50 |
| Pagination.TotalPages | backend/routes/products.js:41 | `totalPages` is the ceiling of total/limit: enough pages to hold every row and one fewer would not, and it is 0 exactly when there are no rows |
| Pagination.Offset | backend/routes/products.js:13 | the offset `(page-1)*limit` is a whole number of pages: divided by the limit it leaves nothing over and gives the number of earlier pages (the favorites listing computes it the same way, favorites.js:12) |
| Pagination.Paginate | backend/routes/products.js:74-81 | the `pagination` object echoes page, limit and total, its `totalPages` is `TotalPages`, `hasNext` holds exactly when rows remain after this page and `hasPrev` exactly when the page is not the first (the same object as favorites.js:35) |
| Pagination.PageNonEmpty | backend/routes/products.js:13 | the window `LIMIT limit OFFSET (page-1)*limit` is non-empty exactly when page <= totalPages |
| Pagination.HasNextMeansMoreRows | backend/routes/products.js:79-80 | `hasNext` is set exactly when the next page holds rows; `hasPrev` exactly when the page is not the first |
| Pagination.RowOnItsPage | backend/routes/products.js:13 | every row k appears on exactly one page: page k/limit+1, at position k mod limit |
| Rows.Where | backend/routes/products.js:36-38 | a `WHERE` returns only rows of the table that satisfy the condition, every such row, and never more rows than the table has |
| Rows.WhereCounts | backend/routes/products.js:36-38 | a `WHERE` neither repeats nor loses rows: a kept row occurs as often as in the table, a rejected row not at all |
| Rows.WhereAppend | backend/routes/products.js:36-38 | a `WHERE` keeps table order: the kept rows of an earlier stretch of the table come before those of a later stretch |
| Rows.WherePairwise | backend/config/database.js:15-17 | deleting rows keeps every pairwise uniqueness/ordering constraint the table had |
| Rows.WhereDropsSome | backend/routes/favorites.js:76-80 | a `DELETE` changes the row count exactly when some row matched |
| Rows.First | backend/routes/products.js:184 | `.get()` returns a row that matches when one exists, and nothing exactly when no row matches |
| Rows.Window | backend/routes/products.js:55 | `LIMIT`/`OFFSET` returns min(limit, rows left after offset) rows, the k-th being row offset+k |
| Text.Trim | backend/routes/products.js:134 | `trim()` removes exactly the leading and trailing whitespace: the result has none at either end and sits inside the input between whitespace-only padding |
| Text.TrimIdempotent | backend/routes/products.js:134 | trimming twice is trimming once |
| Text.ContainsFold | backend/routes/products.js:26-27 | `LIKE '%s%'`: the empty pattern matches every text, and a pattern longer than the text matches none |
| Text.ContainsFoldAt | backend/routes/products.js:26-27 | `LIKE '%s%'` (ASCII case-insensitive) matches exactly when the search text occurs, case-folded, at some position |
| Text.ContainsVerbatim | backend/routes/products.js:26-27 | a text that contains the search verbatim is always matched |
| Ordering.PrecedesTotal | backend/routes/products.js:54 | any two sort keys are ordered one way or the other, in both directions |
| Ordering.PrecedesTransitive | backend/routes/products.js:54 | the order on sort keys is transitive |
| Ordering.SortBy | backend/routes/products.js:54 | `ORDER BY` returns a permutation of its rows in which every earlier row precedes every later one |
| Queries.SortFieldOf | backend/routes/products.js:16-20 | the sort column is `title` or `price` exactly when asked for, and `created_at` for anything else, including a missing or unknown name |
| Queries.DirectionOf | backend/routes/products.js:17 | the order is ascending exactly when `order` is `asc`, descending otherwise |
| Queries.BuildWhereClause | backend/routes/products.js:22-33 | the clause has at most two conjuncts and a product satisfies it exactly when it matches the search (title or description) and the category, an empty filter filtering nothing |
| Queries.Filtered | backend/routes/products.js:36-38 | the counted rows are exactly the products matching the filters |
| Queries.NoFilterListsAll | backend/routes/products.js:22 | with no search and no category every product is listed, in table order |
| Queries.SortProducts | backend/routes/products.js:54 | the listing is a permutation of the filtered rows, ordered on the chosen column and direction |
| Queries.ListedProductsMatch | backend/routes/products.js:53-55 | every row on any page of the listing is a product of the table matching the filters, and the page is in the requested order |
| Queries.SellerName | backend/routes/products.js:51 | the seller name is present exactly when the seller id names an existing user, and then it is that user's username |
| Queries.ViewOf | backend/routes/products.js:46-68 | a listed product carries its seller name and is flagged favorited exactly when a caller is signed in and has favorited it |
| Queries.ViewsOf | backend/routes/products.js:73 | the response holds one view per row, in row order |
| Queries.FavoritesOf | backend/routes/favorites.js:14-16 | the counted favorites are exactly the caller's favorites |
| Queries.JoinProducts | backend/routes/favorites.js:23-27 | the inner join yields no more rows than there are favorites, each flagged favorited, holding an existing product with its seller's name (`LEFT JOIN users`) and the product id and timestamp of one of the favorites |
| Queries.JoinFindsFavorite | backend/routes/favorites.js:23-27 | every favorite whose product exists has a row in the join with that product and the favorite's timestamp |
| Queries.JoinKeepsEveryFavorite | backend/routes/favorites.js:14-27 | when every favorite's product exists, the join drops none, so `total` counts the rows that are paged |
| Queries.ListedFavoritesAreTheirs | backend/routes/favorites.js:23-31 | every row on any page of the favorites listing is one of the caller's favorites, flagged favorited, with an existing product, newest first |
| Queries.EveryFavoriteListed | backend/routes/favorites.js:21-31 | with the foreign key in place, every favorite of the caller appears in the favorites listing (across its pages) with its product and timestamp |
| Queries.SortFavorites | backend/routes/favorites.js:28 | favorites are returned as a permutation, newest first |
| Credentials.Hash | backend/routes/auth.js:45-46 | `bcrypt.hash` with a `genSalt(12)` salt records cost 12 and the salt, and the hash it makes accepts its password |
| Credentials.Compare | backend/routes/auth.js:95 | `bcrypt.compare` accepts exactly when re-hashing the candidate with the cost and salt read from the stored hash reproduces that hash |
| Credentials.CompareHash | backend/routes/auth.js:95 | `bcrypt.compare` accepts a password against its own hash and rejects any other password |
| Credentials.CompareAnyCost | backend/routes/auth.js:95 | whatever cost a stored hash was made with, it accepts its own password and rejects every other one |
| Validation.Check | backend/routes/products.js:134 | a validator reports its message exactly when its check fails |
| Validation.FourChecks | backend/routes/products.js:134-137 | a chain of validators with distinct messages reports each message exactly when its check fails, one message per failure (`TwoChecks` and `ThreeChecks` are its shorter forms) |
| Validation.CreateErrors | backend/routes/products.js:134-138 | creating a product has no errors exactly when the trimmed title is 2-200 characters, the trimmed description 10-2000, the price a number of at least one cent and the image, if sent, a URL; at most four messages |
| Validation.CreateMessages | backend/routes/products.js:134-137 | each field of a create body reports its own message exactly when it fails, and there is one message per failed field |
| Validation.UpdateErrors | backend/routes/products.js:170-174 | an update has no errors exactly when every field sent is valid; fields left out are not checked and each failure reports `Invalid value` |
| Validation.UpdateMessages | backend/routes/products.js:170-173 | an update reports one `Invalid value` per failed field sent, and none for a field left out |
| Validation.RegisterErrors | backend/routes/auth.js:14-25 | registering has no errors exactly when the trimmed username is 3-30 characters, the email valid and the password at least 6 characters |
| Validation.RegisterMessages | backend/routes/auth.js:14-24 | each field of a register body reports its own message exactly when it fails, one message per failed field |
| Validation.LoginErrors | backend/routes/auth.js:75-76 | a login has no errors exactly when the email is valid and the password non-empty |
| Validation.LoginMessages | backend/routes/auth.js:75-76 | each field of a login body reports its own message exactly when it fails, one message per failed field |
| Schema.FindProduct | backend/routes/products.js:184 | the product lookup by id succeeds exactly when the id exists, returning that row |
| Schema.FindUser | backend/routes/products.js:51 | the user lookup by id succeeds exactly when the id exists, returning that row |
| Schema.FindUserByEmail | backend/routes/auth.js:88 | the user lookup by email succeeds exactly when a user has that email |
| Schema.ConsistentKeys | backend/config/database.js:13-44 | the integrity invariant (`Schema.Consistent`, which `Store.Valid()` is) makes the id a key of each table, usernames and emails unique among users, and each (user, product) favorite pair unique |
| Schema.FavoritesHaveProducts | backend/config/database.js:41 | with foreign keys on, every favorite names an existing product |
| Schema.EmailIdentifiesUser | backend/config/database.js:17 | with unique emails, the user found by email is the only user with it |
| Schema.WithoutProduct | backend/routes/products.js:237 | deleting a product removes exactly the rows with that id |
| Schema.WithoutProductFavorites | backend/config/database.js:41 | the cascade removes exactly the favorites of the deleted product |
| Schema.WithoutPair | backend/routes/favorites.js:76-78 | removing a favorite deletes exactly the caller's row for that product; every other user's and product's favorite stays |
| Schema.ReplaceProduct | backend/routes/products.js:196-204 | an update rewrites the row with the same id and leaves every other row where it was |
| Schema.FindReplaced | backend/routes/products.js:214 | reading the product back by id after the update gives exactly the row the update wrote |
| Schema.DeleteRemovesOneProduct | backend/routes/products.js:237 | deleting an existing product removes exactly one row |
| Schema.RemoveDropsOneFavorite | backend/routes/favorites.js:76-80 | removing an existing favorite changes exactly one row |
| Schema.RemoveAbsentFavorite | backend/routes/favorites.js:76-82 | removing a favorite that does not exist changes nothing |
| Schema.AddThenRemove | backend/routes/favorites.js:62 | inserting a new favorite pair and deleting that pair restores the table |
| Schema.InsertUserConsistent | backend/config/database.js:14-20 | inserting a user with the next id and an unused username and email keeps the schema's integrity |
| Schema.InsertProductConsistent | backend/config/database.js:22-33 | inserting a valid product with the next id and an existing seller keeps integrity |
| Schema.InsertFavoriteConsistent | backend/config/database.js:35-43 | inserting a favorite for an existing user and product, not yet paired, keeps integrity |
| Schema.ReplaceProductConsistent | backend/config/database.js:22-33 | rewriting a product's fields, keeping id and seller, keeps integrity |
| Schema.DeleteProductConsistent | backend/config/database.js:40-41 | deleting a product together with its favorites keeps integrity, so no favorite is left dangling |
| Schema.RemovePairConsistent | backend/config/database.js:42 | deleting a favorite pair keeps integrity |
| Marketplace.Coalesce | backend/routes/products.js:198-210 | `COALESCE(value OR null, column)`: a non-empty value replaces the column, a missing or empty one keeps it |
| Marketplace.NewProduct | backend/routes/products.js:147-153 | the inserted product has the next id, the caller as seller, the trimmed fields, an empty image and the category `general` when those are not sent |
| Marketplace.Patched | backend/routes/products.js:194-212 | an update replaces each field sent with a non-empty value, keeps the others, sets `updated_at`, and never changes id, seller or creation time |
| Marketplace.EmptyPatchKeepsFields | backend/routes/products.js:196-204 | an update with no fields only touches `updated_at` |
| Marketplace.PatchedWellFormed | backend/routes/products.js:170-174 | an accepted update keeps the row within the validated bounds |
| Marketplace.NewUser | backend/routes/auth.js:45-51 | the inserted user has the next id, the trimmed username, the normalised email and a cost-12 bcrypt hash that accepts the password |
| Marketplace.Store.constructor | backend/config/database.js:13-44 | a fresh database has empty tables and no ids issued, and is consistent |
| Marketplace.Store.ListProducts | backend/routes/products.js:9-87 | 200 exactly when the offset fits SQLite's 64-bit `OFFSET`, otherwise 500 `Internal server error`; on 200 the page is the sorted, filtered products windowed by the normalised page and limit, with the matching pagination metadata; each row matches the filters, is in the table, is flagged favorited exactly when the caller favorited it, and rows come in the requested order |
| Marketplace.Store.GetProduct | backend/routes/products.js:89-127 | 404 `Product not found` exactly when no product has the id; otherwise 200 with that row, its seller name and the caller's favorite flag |
| Marketplace.Store.CreateProduct | backend/routes/products.js:130-163 | 400 with the validation messages before anything else; 500 when the caller is not a user; otherwise 201 with the new row appended under an id larger than every earlier one; other tables untouched |
| Marketplace.Store.UpdateProduct | backend/routes/products.js:166-221 | 400, then 404, then 403 for a caller who is not the seller, each leaving the table unchanged; 200 exactly when all three checks pass, with the patched row written in place; the row returned is the row a read-back by id gives |
| Marketplace.Store.DeleteProduct | backend/routes/products.js:224-244 | 404, then 403 for a caller who is not the seller, nothing changed; 200 exactly when the product exists and the caller is its seller, exactly one product removed and its favorites cascaded away |
| Marketplace.Store.ListFavorites | backend/routes/favorites.js:8-41 | 200 exactly when the offset fits SQLite's 64-bit `OFFSET`, otherwise 500 `Internal server error`; on 200 only the caller's favorites, newest first, each flagged favorited, windowed by the normalised page and a default limit of 20; `total` equals the number of rows paged |
| Marketplace.Store.AddFavorite | backend/routes/favorites.js:44-69 | 404 when the product is missing, then 409 when already favorited, then 500 when the caller is not a user, nothing written; 201 exactly when all three checks pass, with exactly one row appended |
| Marketplace.Store.RemoveFavorite | backend/routes/favorites.js:72-89 | deletes exactly the caller's pair; 404 exactly when there was none (nothing changes), otherwise 200 with one row fewer |
| Marketplace.Store.Register | backend/routes/auth.js:11-69 | 400 with the validation messages before any read or write; 409 when the username or normalised email is taken, nothing written; otherwise 201, one user appended with the next id, the token's payload equal to the returned public user |
| Marketplace.Store.InsertUser | backend/routes/auth.js:49-51 | `INSERT INTO users` of a row with the next id and an unused username and email appends exactly that row, advances the users counter, leaves the other tables alone and keeps integrity |
| Marketplace.Store.Login | backend/routes/auth.js:72-116 | changes nothing; 400 on invalid input; 200 exactly when a user with that email has a hash accepting the password at the cost recorded in that hash, returning that user with the token's payload equal to it; otherwise 401 with the same message for an unknown email and a wrong password |
| Scenarios.AddThenRemoveFavorite | backend/routes/favorites.js:62-84 | a successful add followed by a remove of the same product answers 200 and restores the favorites table |
| Scenarios.RegisterTwice | backend/routes/auth.js:36-42 | after a successful registration the same body is a 409 |
| Scenarios.RegisterThenLogin | backend/routes/auth.js:88-110 | a user who has just registered logs in with the same credentials and gets the same public user |
| Scenarios.DeleteThenGet | backend/routes/products.js:118-119 | after a successful delete, reading the product is a 404 |

## Left out

- Authentication middleware (`backend/middleware/auth.js` is not part of this model): the caller's user id is a parameter, and the 401 the middleware sends for a missing or invalid token on the signed-in routes is not modelled.
- Token signing: the secret, the expiry and the signature are left out; a token is modelled by its payload only.
- Credentials.CompareHash: bcrypt is idealised as an injective hash of (cost, salt, password); salts come in as parameters rather than from a random source, and hash collisions are not modelled; neither is bcrypt's truncation of passwords to their first 72 bytes, under which two passwords sharing those bytes compare equal.
- Credentials.CompareAnyCost: the same idealisation; since bcrypt reads only the first 72 bytes of a password, two passwords sharing those bytes are accepted by the source and told apart by the model, so Marketplace.Store.Login answers 401 where the source answers 200 for such a password.
- Email and URL validation (`isEmail`, `normalizeEmail`, `isURL`) are parameters of the handlers; the model fixes only how their answers are used.
- Prices: JavaScript numbers and SQLite `REAL` are modelled as whole cents, and a non-numeric price as its own value; floating-point rounding is not modelled.
- Query parameters are given as already-parsed `parseInt` results (absent or NaN is `None`); parameters sent as arrays or objects, and non-string JSON body fields, are not modelled.
- Path ids are integers; SQLite's conversion of a textual id such as `"7abc"` is not modelled.
- Text.ContainsFold: `LIKE` wildcards (`%`, `_`) inside the search text are matched literally, and case folding covers ASCII letters only (as SQLite's `LIKE` does).
- Text.ContainsFoldAt: the match it characterises is the literal-pattern one; SQLite's `LIKE` treats `%` and `_` in the search as wildcards (a search of `_` matches every non-empty title), so such a search lists products the model leaves out.
- Validation.CreateErrors: lengths count every character of the string; `isLength` does not count the variation selectors U+FE0E and U+FE0F, so a title or description padded with them is accepted by the model where the source may reject it.
- Validation.RegisterErrors: the same `isLength` gap for the username (3-30) and the password (at least 6): a password `abcde` followed by U+FE0F is 6 characters here and 5 to the source, which answers 400 where the model answers 201.
- Validation.UpdateErrors: the same `isLength` gap for the title and description of an update; and each error object's `path`, `location` and `value` are left out, only its message is kept, so on this route, where every message is `Invalid value`, the model's errors tell how many fields failed (`UpdateMessages`) but not which.
- Timestamps (`CURRENT_TIMESTAMP`) are an integer clock passed to the writing handlers; their text format and second resolution are not modelled.
- Queries.SortProducts: rows with equal sort keys come out in table order; SQLite promises no order among ties, so this is one admissible answer.
- Queries.SortFavorites: favorites with the same `created_at` (common, since the timestamp has one-second resolution) come out in table order, and `ListFavorites` pages that order; `ORDER BY f.created_at DESC` promises no order among them, so this is one admissible answer and a tie may fall differently across pages in the source.
- Pagination.NormalizePage: `parseInt` yields a double, and pages above 2^53 are rounded in the source, as is the offset computed from them; the model computes `Offset` exactly, so `ListProducts` and `ListFavorites` answer 500 exactly when the exact offset exceeds 2^63-1, which can differ from the source by the rounding near that bound.
- Database errors other than the foreign-key failures above and the offset overflow of the listings (disk, locking, `WAL` mode, and `AUTOINCREMENT` refusing an insert once rowid 2^63-1 has been used, since ids and the three counters are unbounded here) and the generic 500 they cause are not modelled; each handler runs atomically, with no concurrent requests.
- No route deletes users, so the `ON DELETE CASCADE` from users to favorites is not modelled.
- The server wiring (CORS, static files, the catch-all 404 and error handlers), the seed script and the web and mobile clients are not part of this model.
