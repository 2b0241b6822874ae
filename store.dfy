/** The backend's database and its route handlers. `Store` holds the three
    tables and the AUTOINCREMENT counters; each method is one handler, taking
    the request's parameters and body and answering with a status and a body.
    The authenticated caller is the user id the auth middleware decoded from
    the bearer token (`Option<int>` on the routes where a token is optional). */
module Marketplace {
  import opened Http
  import opened Text
  import opened Rows
  import opened Ordering
  import opened Pagination
  import opened Credentials
  import opened Schema
  import opened Validation
  import opened Queries

  const ProductNotFound := "Product not found"
  const NotAllowedToUpdate := "Not authorized to update this product"
  const NotAllowedToDelete := "Not authorized to delete this product"
  const ProductDeleted := "Product deleted successfully"
  const AlreadyFavorited := "Product already in favorites"
  const FavoriteAdded := "Added to favorites"
  const FavoriteNotFound := "Favorite not found"
  const FavoriteRemoved := "Removed from favorites"
  const UserExists := "User already exists with this email or username"
  const Registered := "User registered successfully"
  const BadCredentials := "Invalid email or password"
  const LoggedIn := "Login successful"

  /** The sanitised value of a field: `trim()` when the field was given. */
  function Trimmed(field: Option<string>): Option<string> {
    if field.Some? then Some(Trim(field.value)) else None
  }

  /** `given || null` bound into `COALESCE(?, column)`: a given, non-empty
      value replaces the column, anything else keeps it. */
  function Coalesce(given: Option<string>, current: string): (r: string)
    ensures given.Some? && given.value != "" ==> r == given.value
    ensures given.None? || given.value == "" ==> r == current
  {
    if given.Some? && given.value != "" then given.value else current
  }

  /** The row `INSERT INTO products` creates for an accepted body. */
  function NewProduct(id: int, seller: int, input: ProductInput, now: int): (p: Product)
    requires input.price.Some? && input.price.value.Cents?
    ensures p.id == id && p.sellerId == Some(seller) && p.createdAt == now && p.updatedAt == now
    ensures p.title == Trim(OrEmpty(input.title)) && p.description == Trim(OrEmpty(input.description))
    ensures p.price == input.price.value.cents
    ensures p.image == Coalesce(input.image, DefaultImage)
    ensures p.category == Coalesce(Trimmed(input.category), DefaultCategory)
    ensures input.image.None? ==> p.image == DefaultImage
    ensures input.category.None? ==> p.category == DefaultCategory
  {
    Product(id, Trim(OrEmpty(input.title)), Trim(OrEmpty(input.description)), input.price.value.cents,
            Coalesce(input.image, DefaultImage), Coalesce(Trimmed(input.category), DefaultCategory),
            Some(seller), now, now)
  }

  /** The row after `UPDATE products SET title = COALESCE(?, title), ...,
      updated_at = CURRENT_TIMESTAMP`: each field given with a truthy value
      replaces the column; id, seller and creation time never change. */
  function Patched(p: Product, input: ProductInput, now: int): (r: Product)
    ensures r.id == p.id && r.sellerId == p.sellerId && r.createdAt == p.createdAt && r.updatedAt == now
    ensures r.title == Coalesce(Trimmed(input.title), p.title)
    ensures r.description == Coalesce(Trimmed(input.description), p.description)
    ensures r.image == Coalesce(input.image, p.image)
    ensures r.category == Coalesce(Trimmed(input.category), p.category)
    ensures r.price == if input.price.Some? && input.price.value.Cents? && input.price.value.cents != 0
                       then input.price.value.cents else p.price
  {
    var price := if input.price.Some? && input.price.value.Cents? && input.price.value.cents != 0
                 then input.price.value.cents else p.price;
    p.(title := Coalesce(Trimmed(input.title), p.title),
       description := Coalesce(Trimmed(input.description), p.description),
       price := price,
       image := Coalesce(input.image, p.image),
       category := Coalesce(Trimmed(input.category), p.category),
       updatedAt := now)
  }

  /** An update with no fields only touches `updated_at`. */
  lemma EmptyPatchKeepsFields(p: Product, now: int)
    ensures Patched(p, ProductInput(None, None, None, None, None), now) == p.(updatedAt := now)
  {
  }

  /** An accepted update keeps a well-formed row well-formed. */
  lemma PatchedWellFormed(p: Product, input: ProductInput, isUrl: UrlCheck, now: int)
    requires WellFormedProduct(p) && UpdateErrors(input, isUrl) == []
    ensures WellFormedProduct(Patched(p, input, now))
  {
  }

  /** The row `INSERT INTO users` creates for an accepted body. */
  function NewUser(id: int, input: RegisterInput, email: string, salt: nat, now: int): (u: User)
    ensures u.id == id && u.username == Trim(OrEmpty(input.username)) && u.email == email
    ensures Compare(OrEmpty(input.password), u.password) && u.password.cost == BcryptCost
    ensures u.createdAt == now
  {
    User(id, Trim(OrEmpty(input.username)), email, Hash(OrEmpty(input.password), salt), now)
  }

  /** The body of a successful register or login. */
  datatype AuthBody = AuthBody(message: string, token: Token, user: PublicUser)

  class Store {
    var users: seq<User>
    var products: seq<Product>
    var favorites: seq<Favorite>
    /** The `sqlite_sequence` counters: the largest id each table has issued. */
    var userSeq: nat
    var productSeq: nat
    var favoriteSeq: nat

    ghost predicate Valid()
      reads this
    {
      Consistent(users, products, favorites, userSeq, productSeq, favoriteSeq)
    }

    /** The freshly created database: empty tables, no ids issued. */
    constructor ()
      ensures Valid()
      ensures users == [] && products == [] && favorites == []
      ensures userSeq == 0 && productSeq == 0 && favoriteSeq == 0
    {
      users, products, favorites := [], [], [];
      userSeq, productSeq, favoriteSeq := 0, 0, 0;
    }

    /** `GET /products`. The listing query fails, and the handler answers
        500, when the offset does not fit SQLite's `OFFSET`. */
    method ListProducts(q: ProductQuery, caller: Option<int>) returns (resp: Reply<ProductPage>)
      requires Valid()
      ensures resp.Success? <==>
        Offset(NormalizePage(q.page), NormalizeLimit(q.limit, ProductsDefaultLimit)) <= MaxOffset
      ensures resp.Failure? ==> resp == Failure(InternalError, [InternalErrorMessage])
      ensures resp.Success? ==>
        var page := NormalizePage(q.page);
        var limit := NormalizeLimit(q.limit, ProductsDefaultLimit);
        var rows := Filtered(products, OrEmpty(q.search), OrEmpty(q.category));
        var sorted := SortProducts(rows, SortFieldOf(q.sortBy), DirectionOf(q.order));
        && resp.status == Ok
        && resp.value.pagination == Paginate(page, limit, |rows|)
        && resp.value.products == ViewsOf(Window(sorted, Offset(page, limit), limit), users, favorites, caller)
      ensures resp.Success? ==> |resp.value.products| <= resp.value.pagination.limit <= MaxLimit
      ensures resp.Success? ==> forall v | v in resp.value.products ::
        && v.product in products
        && Matches(v.product, OrEmpty(q.search), OrEmpty(q.category))
        && (v.isFavorited <==> caller.Some? && HasFavorite(favorites, caller.value, v.product.id))
      ensures resp.Success? ==> forall i, j | 0 <= i < j < |resp.value.products| ::
        Precedes(SortKey(resp.value.products[i].product, SortFieldOf(q.sortBy)),
                 SortKey(resp.value.products[j].product, SortFieldOf(q.sortBy)),
                 DirectionOf(q.order))
    {
      var page := NormalizePage(q.page);
      var limit := NormalizeLimit(q.limit, ProductsDefaultLimit);
      var offset := Offset(page, limit);
      if offset > MaxOffset {
        return Failure(InternalError, [InternalErrorMessage]);
      }
      var search := OrEmpty(q.search);
      var category := OrEmpty(q.category);
      var field := SortFieldOf(q.sortBy);
      var dir := DirectionOf(q.order);

      var where := BuildWhereClause(search, category);
      var rows := Where(products, (p: Product) => SatisfiesAll(p, where));
      WhereExt(products, (p: Product) => SatisfiesAll(p, where), (p: Product) => Matches(p, search, category));
      assert rows == Filtered(products, search, category);

      var pagination := Paginate(page, limit, |rows|);
      var sorted := SortProducts(rows, field, dir);
      var shown := Window(sorted, offset, limit);
      ListedProductsMatch(products, search, category, field, dir, offset, limit);
      resp := Success(Ok, ProductPage(ViewsOf(shown, users, favorites, caller), pagination));
    }

    /** `GET /products/:id`. */
    method GetProduct(id: int, caller: Option<int>) returns (resp: Reply<ProductView>)
      requires Valid()
      ensures resp.Failure? <==> !HasProduct(products, id)
      ensures resp.Failure? ==> resp == Failure(NotFound, [ProductNotFound])
      ensures resp.Success? ==>
        && resp.status == Ok
        && resp.value.product in products && resp.value.product.id == id
        && resp.value.sellerName == SellerName(users, resp.value.product.sellerId)
        && (resp.value.isFavorited <==> caller.Some? && HasFavorite(favorites, caller.value, id))
    {
      match FindProduct(products, id)
      case None =>
        resp := Failure(NotFound, [ProductNotFound]);
      case Some(p) =>
        resp := Success(Ok, ViewOf(p, users, favorites, caller));
    }

    /** `POST /products`. The insert fails on the seller foreign key when
        the token names a user the table does not hold. */
    method CreateProduct(caller: int, input: ProductInput, isUrl: UrlCheck, now: int) returns (resp: Reply<Product>)
      requires Valid()
      modifies this
      ensures Valid()
      ensures users == old(users) && favorites == old(favorites)
      ensures userSeq == old(userSeq) && favoriteSeq == old(favoriteSeq)
      ensures CreateErrors(input, isUrl) != [] ==>
        resp == Failure(BadRequest, CreateErrors(input, isUrl))
      ensures CreateErrors(input, isUrl) == [] && !HasUser(users, caller) ==>
        resp == Failure(InternalError, [InternalErrorMessage])
      ensures resp.Failure? ==> products == old(products) && productSeq == old(productSeq)
      ensures resp.Success? <==> CreateErrors(input, isUrl) == [] && HasUser(users, caller)
      ensures resp.Success? ==>
        && resp.status == Created
        && resp.value == NewProduct(old(productSeq) + 1, caller, input, now)
        && products == old(products) + [resp.value]
        && productSeq == old(productSeq) + 1
        && forall p | p in old(products) :: p.id < resp.value.id
    {
      var errors := CreateErrors(input, isUrl);
      if errors != [] {
        resp := Failure(BadRequest, errors);
        return;
      }
      if !HasUser(users, caller) {
        resp := Failure(InternalError, [InternalErrorMessage]);
        return;
      }
      var p := NewProduct(productSeq + 1, caller, input, now);
      InsertProductConsistent(users, products, favorites, userSeq, productSeq, favoriteSeq, p);
      products := products + [p];
      productSeq := productSeq + 1;
      resp := Success(Created, p);
    }

    /** `PUT /products/:id`: validation, then existence, then ownership,
        each before anything is written. */
    method UpdateProduct(caller: int, id: int, input: ProductInput, isUrl: UrlCheck, now: int) returns (resp: Reply<Product>)
      requires Valid()
      modifies this
      ensures Valid()
      ensures users == old(users) && favorites == old(favorites)
      ensures userSeq == old(userSeq) && productSeq == old(productSeq) && favoriteSeq == old(favoriteSeq)
      ensures UpdateErrors(input, isUrl) != [] ==>
        resp == Failure(BadRequest, UpdateErrors(input, isUrl))
      ensures UpdateErrors(input, isUrl) == [] && !HasProduct(old(products), id) ==>
        resp == Failure(NotFound, [ProductNotFound])
      ensures UpdateErrors(input, isUrl) == [] && HasProduct(old(products), id)
              && FindProduct(old(products), id).value.sellerId != Some(caller) ==>
        resp == Failure(Forbidden, [NotAllowedToUpdate])
      ensures resp.Failure? ==> products == old(products)
      ensures resp.Success? <==>
        && UpdateErrors(input, isUrl) == [] && HasProduct(old(products), id)
        && FindProduct(old(products), id).value.sellerId == Some(caller)
      ensures resp.Success? ==>
        && resp.status == Ok
        && var before := FindProduct(old(products), id).value;
        && before.sellerId == Some(caller)
        && resp.value == Patched(before, input, now)
        && products == ReplaceProduct(old(products), resp.value)
        && FindProduct(products, id) == Some(resp.value)
    {
      var errors := UpdateErrors(input, isUrl);
      if errors != [] {
        resp := Failure(BadRequest, errors);
        return;
      }
      match FindProduct(products, id)
      case None =>
        resp := Failure(NotFound, [ProductNotFound]);
      case Some(p) =>
        if p.sellerId != Some(caller) {
          resp := Failure(Forbidden, [NotAllowedToUpdate]);
        } else {
          var updated := Patched(p, input, now);
          PatchedWellFormed(p, input, isUrl, now);
          ReplaceProductConsistent(users, products, favorites, userSeq, productSeq, favoriteSeq, updated);
          FindReplaced(products, updated);
          products := ReplaceProduct(products, updated);
          resp := Success(Ok, updated);
        }
    }

    /** `DELETE /products/:id`: existence, then ownership; the delete
        cascades to the product's favorites. */
    method DeleteProduct(caller: int, id: int) returns (resp: Reply<string>)
      requires Valid()
      modifies this
      ensures Valid()
      ensures users == old(users)
      ensures userSeq == old(userSeq) && productSeq == old(productSeq) && favoriteSeq == old(favoriteSeq)
      ensures !HasProduct(old(products), id) ==> resp == Failure(NotFound, [ProductNotFound])
      ensures HasProduct(old(products), id) && FindProduct(old(products), id).value.sellerId != Some(caller) ==>
        resp == Failure(Forbidden, [NotAllowedToDelete])
      ensures resp.Failure? ==> products == old(products) && favorites == old(favorites)
      ensures resp.Success? <==>
        HasProduct(old(products), id) && FindProduct(old(products), id).value.sellerId == Some(caller)
      ensures resp.Success? ==>
        && resp == Success(Ok, ProductDeleted)
        && FindProduct(old(products), id).value.sellerId == Some(caller)
        && products == WithoutProduct(old(products), id)
        && |products| == |old(products)| - 1
        && favorites == WithoutProductFavorites(old(favorites), id)
    {
      match FindProduct(products, id)
      case None =>
        resp := Failure(NotFound, [ProductNotFound]);
      case Some(p) =>
        if p.sellerId != Some(caller) {
          resp := Failure(Forbidden, [NotAllowedToDelete]);
        } else {
          DeleteProductConsistent(users, products, favorites, userSeq, productSeq, favoriteSeq, id);
          DeleteRemovesOneProduct(products, id);
          products := WithoutProduct(products, id);
          favorites := WithoutProductFavorites(favorites, id);
          resp := Success(Ok, ProductDeleted);
        }
    }

    /** `GET /favorites`, failing like `GET /products` when the offset does
        not fit SQLite's `OFFSET`. */
    method ListFavorites(caller: int, pageParam: Option<int>, limitParam: Option<int>) returns (resp: Reply<FavoritePage>)
      requires Valid()
      ensures resp.Success? <==>
        Offset(NormalizePage(pageParam), NormalizeLimit(limitParam, FavoritesDefaultLimit)) <= MaxOffset
      ensures resp.Failure? ==> resp == Failure(InternalError, [InternalErrorMessage])
      ensures resp.Success? ==>
        var page := NormalizePage(pageParam);
        var limit := NormalizeLimit(limitParam, FavoritesDefaultLimit);
        var rows := SortFavorites(JoinProducts(FavoritesOf(favorites, caller), products, users));
        && resp.status == Ok
        && |rows| == |FavoritesOf(favorites, caller)|
        && resp.value.pagination == Paginate(page, limit, |rows|)
        && resp.value.favorites == Window(rows, Offset(page, limit), limit)
      ensures resp.Success? ==> |resp.value.favorites| <= resp.value.pagination.limit <= MaxLimit
      ensures resp.Success? ==> forall v | v in resp.value.favorites ::
        v.isFavorited && v.product in products && HasFavorite(favorites, caller, v.product.id)
      ensures resp.Success? ==> forall i, j | 0 <= i < j < |resp.value.favorites| ::
        resp.value.favorites[i].favoritedAt >= resp.value.favorites[j].favoritedAt
    {
      var page := NormalizePage(pageParam);
      var limit := NormalizeLimit(limitParam, FavoritesDefaultLimit);
      var offset := Offset(page, limit);
      if offset > MaxOffset {
        return Failure(InternalError, [InternalErrorMessage]);
      }
      var mine := FavoritesOf(favorites, caller);
      var joined := JoinProducts(mine, products, users);
      FavoritesHaveProducts(users, products, favorites, userSeq, productSeq, favoriteSeq, mine);
      JoinKeepsEveryFavorite(mine, products, users);
      var rows := SortFavorites(joined);
      var shown := Window(rows, offset, limit);
      ListedFavoritesAreTheirs(favorites, products, users, caller, offset, limit);
      resp := Success(Ok, FavoritePage(shown, Paginate(page, limit, |rows|)));
    }

    /** `POST /favorites/:productId`: existence, then the duplicate check,
        then the insert (which fails on the user foreign key when the token
        names a user the table does not hold). */
    method AddFavorite(caller: int, productId: int, now: int) returns (resp: Reply<string>)
      requires Valid()
      modifies this
      ensures Valid()
      ensures users == old(users) && products == old(products)
      ensures userSeq == old(userSeq) && productSeq == old(productSeq)
      ensures !HasProduct(products, productId) ==> resp == Failure(NotFound, [ProductNotFound])
      ensures HasProduct(products, productId) && HasFavorite(old(favorites), caller, productId) ==>
        resp == Failure(Conflict, [AlreadyFavorited])
      ensures HasProduct(products, productId) && !HasFavorite(old(favorites), caller, productId) && !HasUser(users, caller) ==>
        resp == Failure(InternalError, [InternalErrorMessage])
      ensures resp.Failure? ==> favorites == old(favorites) && favoriteSeq == old(favoriteSeq)
      ensures resp.Success? <==>
        HasProduct(products, productId) && !HasFavorite(old(favorites), caller, productId) && HasUser(users, caller)
      ensures resp.Success? ==>
        && resp == Success(Created, FavoriteAdded)
        && favorites == old(favorites) + [Favorite(old(favoriteSeq) + 1, caller, productId, now)]
        && favoriteSeq == old(favoriteSeq) + 1
    {
      if !HasProduct(products, productId) {
        resp := Failure(NotFound, [ProductNotFound]);
        return;
      }
      if HasFavorite(favorites, caller, productId) {
        resp := Failure(Conflict, [AlreadyFavorited]);
        return;
      }
      if !HasUser(users, caller) {
        resp := Failure(InternalError, [InternalErrorMessage]);
        return;
      }
      var f := Favorite(favoriteSeq + 1, caller, productId, now);
      InsertFavoriteConsistent(users, products, favorites, userSeq, productSeq, favoriteSeq, f);
      favorites := favorites + [f];
      favoriteSeq := favoriteSeq + 1;
      resp := Success(Created, FavoriteAdded);
    }

    /** `DELETE /favorites/:productId`: the delete runs first, and a zero
        change count becomes a 404. */
    method RemoveFavorite(caller: int, productId: int) returns (resp: Reply<string>)
      requires Valid()
      modifies this
      ensures Valid()
      ensures users == old(users) && products == old(products)
      ensures userSeq == old(userSeq) && productSeq == old(productSeq) && favoriteSeq == old(favoriteSeq)
      ensures favorites == WithoutPair(old(favorites), caller, productId)
      ensures resp.Failure? <==> !HasFavorite(old(favorites), caller, productId)
      ensures resp.Failure? ==> resp == Failure(NotFound, [FavoriteNotFound]) && favorites == old(favorites)
      ensures resp.Success? ==> resp == Success(Ok, FavoriteRemoved) && |favorites| == |old(favorites)| - 1
    {
      RemovePairConsistent(users, products, favorites, userSeq, productSeq, favoriteSeq, caller, productId);
      RemoveAbsentFavorite(favorites, caller, productId);
      if HasFavorite(favorites, caller, productId) {
        RemoveDropsOneFavorite(favorites, caller, productId);
      }
      var before := |favorites|;
      favorites := WithoutPair(favorites, caller, productId);
      var changes := before - |favorites|;
      if changes == 0 {
        resp := Failure(NotFound, [FavoriteNotFound]);
      } else {
        resp := Success(Ok, FavoriteRemoved);
      }
    }

    /** `POST /auth/register`: validation, then the uniqueness check, then
        the insert of the hashed password. */
    method Register(input: RegisterInput, checkEmail: EmailCheck, salt: nat, now: int) returns (resp: Reply<AuthBody>)
      requires Valid()
      modifies this
      ensures Valid()
      ensures products == old(products) && favorites == old(favorites)
      ensures productSeq == old(productSeq) && favoriteSeq == old(favoriteSeq)
      ensures RegisterErrors(input, checkEmail) != [] ==>
        resp == Failure(BadRequest, RegisterErrors(input, checkEmail))
      ensures RegisterErrors(input, checkEmail) == [] ==>
        var username := Trim(OrEmpty(input.username));
        var email := checkEmail(input.email.value).value;
        var taken := exists u | u in old(users) :: u.email == email || u.username == username;
        && (taken ==> resp == Failure(Conflict, [UserExists]))
        && (!taken ==>
              && resp.Success? && resp.status == Created
              && users == old(users) + [NewUser(old(userSeq) + 1, input, email, salt, now)]
              && resp.value.user == PublicUser(old(userSeq) + 1, username, email)
              && resp.value.token.payload == resp.value.user
              && resp.value.message == Registered)
      ensures resp.Failure? ==> users == old(users) && userSeq == old(userSeq)
      ensures resp.Success? ==> userSeq == old(userSeq) + 1
    {
      var errors := RegisterErrors(input, checkEmail);
      if errors != [] {
        resp := Failure(BadRequest, errors);
        return;
      }
      var username := Trim(OrEmpty(input.username));
      var email := checkEmail(input.email.value).value;
      var existing := First(users, (u: User) => u.email == email || u.username == username);
      if existing.Some? {
        resp := Failure(Conflict, [UserExists]);
        return;
      }
      var u := NewUser(userSeq + 1, input, email, salt, now);
      InsertUser(u);
      var user := PublicUser(u.id, username, email);
      resp := Success(Created, AuthBody(Registered, Jwt(user), user));
    }

    /** `INSERT INTO users`: the row takes the next id; the `UNIQUE`
        constraints hold because the handler checked them first. */
    method InsertUser(u: User)
      requires Valid()
      requires u.id == userSeq + 1 && WellFormedUser(u)
      requires forall v | v in users :: v.username != u.username && v.email != u.email
      modifies this
      ensures Valid()
      ensures users == old(users) + [u] && userSeq == old(userSeq) + 1
      ensures products == old(products) && favorites == old(favorites)
      ensures productSeq == old(productSeq) && favoriteSeq == old(favoriteSeq)
    {
      InsertUserConsistent(users, products, favorites, userSeq, productSeq, favoriteSeq, u);
      users := users + [u];
      userSeq := userSeq + 1;
    }

    /** `POST /auth/login`: one message for an unknown email and for a
        wrong password. Without a `modifies` clause it cannot change a table. */
    method Login(input: LoginInput, checkEmail: EmailCheck) returns (resp: Reply<AuthBody>)
      requires Valid()
      ensures LoginErrors(input, checkEmail) != [] ==>
        resp == Failure(BadRequest, LoginErrors(input, checkEmail))
      ensures resp.Failure? && LoginErrors(input, checkEmail) == [] ==>
        resp == Failure(Unauthorized, [BadCredentials])
      ensures resp.Success? <==>
        && LoginErrors(input, checkEmail) == []
        && exists u | u in users ::
             u.email == checkEmail(input.email.value).value && Compare(OrEmpty(input.password), u.password)
      ensures resp.Success? ==>
        && resp.status == Ok && resp.value.message == LoggedIn
        && resp.value.token.payload == resp.value.user
        && exists u | u in users :: u.email == checkEmail(input.email.value).value && resp.value.user == PublicOf(u)
    {
      var errors := LoginErrors(input, checkEmail);
      if errors != [] {
        resp := Failure(BadRequest, errors);
        return;
      }
      var email := checkEmail(input.email.value).value;
      match FindUserByEmail(users, email)
      case None =>
        resp := Failure(Unauthorized, [BadCredentials]);
      case Some(u) =>
        if !Compare(OrEmpty(input.password), u.password) {
          EmailIdentifiesUser(users, u);
          resp := Failure(Unauthorized, [BadCredentials]);
        } else {
          var user := PublicOf(u);
          resp := Success(Ok, AuthBody(LoggedIn, Jwt(user), user));
        }
    }
  }
}
