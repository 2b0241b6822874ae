/** The read side of the product and favorites routes: normalising the
    query string, the `WHERE` clause, the `ORDER BY` key, the joins that add
    the seller's name and the favorite flag, and the rows a page shows. */
module Queries {
  import opened Http
  import opened Text
  import opened Rows
  import opened Ordering
  import opened Pagination
  import opened Schema

  /** The product columns a listing may be sorted on. */
  datatype SortField = Title | Price | CreatedAt

  /** The query string of `GET /products`; `page` and `limit` are the
      results of `parseInt`. */
  datatype ProductQuery = ProductQuery(
    page: Option<int>, limit: Option<int>, search: Option<string>,
    category: Option<string>, sortBy: Option<string>, order: Option<string>)

  const ProductsDefaultLimit := 10
  const FavoritesDefaultLimit := 20

  /** `sortBy || 'created_at'` checked against the allowed columns; any
      other name sorts on `created_at`. */
  function SortFieldOf(sortBy: Option<string>): (field: SortField)
    ensures field == Title <==> sortBy == Some("title")
    ensures field == Price <==> sortBy == Some("price")
    ensures field == CreatedAt <==> sortBy != Some("title") && sortBy != Some("price")
  {
    var name := if sortBy.Some? && sortBy.value != "" then sortBy.value else "created_at";
    if name == "title" then Title else if name == "price" then Price else CreatedAt
  }

  /** `order === 'asc' ? 'ASC' : 'DESC'`. */
  function DirectionOf(order: Option<string>): (dir: Direction)
    ensures dir == Asc <==> order == Some("asc")
  {
    if order == Some("asc") then Asc else Desc
  }

  /** The value `ORDER BY p.<field>` compares. */
  function SortKey(p: Product, field: SortField): Key {
    match field
    case Title => Text(p.title)
    case Price => Num(p.price)
    case CreatedAt => Num(p.createdAt)
  }

  /** One conjunct of the listing's `WHERE` clause with its bound parameter. */
  datatype Condition = TitleOrDescriptionLike(search: string) | CategoryIs(category: string)

  /** `(p.title LIKE '%s%' OR p.description LIKE '%s%')` and `p.category = ?`. */
  predicate Satisfies(p: Product, c: Condition) {
    match c
    case TitleOrDescriptionLike(s) => ContainsFold(p.title, s) || ContainsFold(p.description, s)
    case CategoryIs(category) => p.category == category
  }

  /** `1=1 AND ...`: every conjunct holds. */
  predicate SatisfiesAll(p: Product, where: seq<Condition>) {
    forall c | c in where :: Satisfies(p, c)
  }

  /** The listing's filter as the route promises it: an empty search or
      category filters nothing, a search matches title or description, a
      category matches exactly. */
  predicate Matches(p: Product, search: string, category: string) {
    && (search == "" || ContainsFold(p.title, search) || ContainsFold(p.description, search))
    && (category == "" || p.category == category)
  }

  /** Builds the `WHERE` clause by appending a conjunct for each non-empty
      filter. */
  method BuildWhereClause(search: string, category: string) returns (where: seq<Condition>)
    ensures |where| <= 2
    ensures forall p :: SatisfiesAll(p, where) <==> Matches(p, search, category)
  {
    where := [];
    if search != "" {
      where := where + [TitleOrDescriptionLike(search)];
    }
    if category != "" {
      where := where + [CategoryIs(category)];
    }
    assert forall c | c in where ::
      (search != "" && c == TitleOrDescriptionLike(search)) || (category != "" && c == CategoryIs(category));
    forall p ensures SatisfiesAll(p, where) <==> Matches(p, search, category) {
      if search != "" {
        assert TitleOrDescriptionLike(search) in where;
      }
      if category != "" {
        assert CategoryIs(category) in where;
      }
    }
  }

  /** The products the listing counts and pages through. */
  function Filtered(products: seq<Product>, search: string, category: string): (rows: seq<Product>)
    ensures forall p | p in rows :: p in products && Matches(p, search, category)
    ensures forall p | p in products && Matches(p, search, category) :: p in rows
  {
    Where(products, (p: Product) => Matches(p, search, category))
  }

  /** With neither a search nor a category, every product is listed. */
  lemma NoFilterListsAll(products: seq<Product>)
    ensures Filtered(products, "", "") == products
  {
    WhereKeepsAll(products, (p: Product) => Matches(p, "", ""));
  }

  /** `ORDER BY p.<field> <dir>`: a permutation of the rows, in order. */
  function SortProducts(rows: seq<Product>, field: SortField, dir: Direction): (r: seq<Product>)
    ensures multiset(r) == multiset(rows)
    ensures forall i, j | 0 <= i < j < |r| :: Precedes(SortKey(r[i], field), SortKey(r[j], field), dir)
  {
    SortBy(rows, (p: Product) => SortKey(p, field), dir)
  }

  /** Every row of any page of the listing is a product of the table that
      matches the filters, and the page is in the requested order. */
  lemma {:induction false} ListedProductsMatch(products: seq<Product>, search: string, category: string,
                                               field: SortField, dir: Direction, offset: nat, limit: nat)
    ensures var shown := Window(SortProducts(Filtered(products, search, category), field, dir), offset, limit);
      && (forall p | p in shown :: p in products && Matches(p, search, category))
      && (forall i, j | 0 <= i < j < |shown| :: Precedes(SortKey(shown[i], field), SortKey(shown[j], field), dir))
  {
    var rows := Filtered(products, search, category);
    var sorted := SortProducts(rows, field, dir);
    var shown := Window(sorted, offset, limit);
    forall p | p in shown ensures p in products && Matches(p, search, category) {
      var k :| 0 <= k < |shown| && shown[k] == p;
      assert sorted[offset + k] in multiset(rows);
    }
    forall i, j | 0 <= i < j < |shown| ensures Precedes(SortKey(shown[i], field), SortKey(shown[j], field), dir) {
      assert shown[i] == sorted[offset + i] && shown[j] == sorted[offset + j];
    }
  }

  /** A product as the routes return it: the row, the seller's username and
      whether the caller has favorited it. */
  datatype ProductView = ProductView(product: Product, sellerName: Option<string>, isFavorited: bool)

  /** `LEFT JOIN users u ON p.seller_id = u.id`, `u.username`. */
  function SellerName(users: seq<User>, sellerId: Option<int>): (name: Option<string>)
    ensures name.Some? <==> sellerId.Some? && HasUser(users, sellerId.value)
    ensures name.Some? ==> exists u | u in users :: u.id == sellerId.value && u.username == name.value
  {
    if sellerId.None? then None
    else match FindUser(users, sellerId.value)
      case None => None
      case Some(u) => Some(u.username)
  }

  /** The joins of a product read. A caller who sent no valid token sees
      every flag false; otherwise the `LEFT JOIN favorites` finds a row
      exactly when the caller has favorited the product. */
  function ViewOf(p: Product, users: seq<User>, favorites: seq<Favorite>, caller: Option<int>): (v: ProductView)
    ensures v.product == p && v.sellerName == SellerName(users, p.sellerId)
    ensures v.isFavorited <==> caller.Some? && HasFavorite(favorites, caller.value, p.id)
  {
    ProductView(p, SellerName(users, p.sellerId), caller.Some? && HasFavorite(favorites, caller.value, p.id))
  }

  function ViewsOf(ps: seq<Product>, users: seq<User>, favorites: seq<Favorite>, caller: Option<int>): (vs: seq<ProductView>)
    ensures |vs| == |ps|
    ensures forall i | 0 <= i < |vs| :: vs[i] == ViewOf(ps[i], users, favorites, caller)
  {
    seq(|ps|, i requires 0 <= i < |ps| => ViewOf(ps[i], users, favorites, caller))
  }

  /** The body of `GET /products`. */
  datatype ProductPage = ProductPage(products: seq<ProductView>, pagination: Meta)

  /** A row of the favorites listing; `isFavorited` is always set there. */
  datatype FavoriteView = FavoriteView(product: Product, sellerName: Option<string>, isFavorited: bool, favoritedAt: int)

  /** The body of `GET /favorites`. */
  datatype FavoritePage = FavoritePage(favorites: seq<FavoriteView>, pagination: Meta)

  /** `FROM favorites f WHERE f.user_id = ?`. */
  function FavoritesOf(favorites: seq<Favorite>, userId: int): (mine: seq<Favorite>)
    ensures forall f | f in mine :: f in favorites && f.userId == userId
    ensures forall f | f in favorites && f.userId == userId :: f in mine
  {
    Where(favorites, (f: Favorite) => f.userId == userId)
  }

  /** `JOIN products p ON f.product_id = p.id`: a favorite whose product is
      missing has no row. */
  function JoinProducts(favs: seq<Favorite>, products: seq<Product>, users: seq<User>): (r: seq<FavoriteView>)
    ensures |r| <= |favs|
    ensures forall v | v in r ::
      && v.isFavorited && v.product in products
      && v.sellerName == SellerName(users, v.product.sellerId)
      && exists f | f in favs :: f.productId == v.product.id && f.createdAt == v.favoritedAt
  {
    if |favs| == 0 then []
    else
      var rest := JoinProducts(favs[1..], products, users);
      assert forall f | f in favs[1..] :: f in favs;
      match FindProduct(products, favs[0].productId)
      case None => rest
      case Some(p) => [FavoriteView(p, SellerName(users, p.sellerId), true, favs[0].createdAt)] + rest
  }

  /** The join drops no favorite whose product exists: it has a row with
      that product and the favorite's timestamp. */
  lemma {:induction false} JoinFindsFavorite(favs: seq<Favorite>, products: seq<Product>, users: seq<User>, f: Favorite)
    requires f in favs && HasProduct(products, f.productId)
    ensures exists v | v in JoinProducts(favs, products, users) ::
      v.product.id == f.productId && v.favoritedAt == f.createdAt
  {
    var r := JoinProducts(favs, products, users);
    if f == favs[0] {
      assert r[0].product.id == f.productId && r[0].favoritedAt == f.createdAt;
      assert r[0] in r;
    } else {
      assert f in favs[1..];
      JoinFindsFavorite(favs[1..], products, users, f);
      var v :| v in JoinProducts(favs[1..], products, users) && v.product.id == f.productId && v.favoritedAt == f.createdAt;
      assert v in r;
    }
  }

  /** When every favorite's product exists (the foreign key), the join
      drops nothing, so the listing's count and its rows agree. */
  lemma {:induction false} JoinKeepsEveryFavorite(favs: seq<Favorite>, products: seq<Product>, users: seq<User>)
    requires forall f | f in favs :: HasProduct(products, f.productId)
    ensures |JoinProducts(favs, products, users)| == |favs|
  {
    if |favs| > 0 {
      assert forall f | f in favs[1..] :: f in favs;
      JoinKeepsEveryFavorite(favs[1..], products, users);
    }
  }

  /** Every row of any page of a user's favorites listing is one of that
      user's favorites, flagged as such, holding an existing product, and
      the page runs from the newest favorite to the oldest. */
  lemma {:induction false} ListedFavoritesAreTheirs(favorites: seq<Favorite>, products: seq<Product>, users: seq<User>,
                                                    userId: int, offset: nat, limit: nat)
    ensures var shown := Window(SortFavorites(JoinProducts(FavoritesOf(favorites, userId), products, users)), offset, limit);
      && (forall v | v in shown :: v.isFavorited && v.product in products && HasFavorite(favorites, userId, v.product.id))
      && (forall i, j | 0 <= i < j < |shown| :: shown[i].favoritedAt >= shown[j].favoritedAt)
  {
    var mine := FavoritesOf(favorites, userId);
    var joined := JoinProducts(mine, products, users);
    var rows := SortFavorites(joined);
    var shown := Window(rows, offset, limit);
    forall i, j | 0 <= i < j < |shown| ensures shown[i].favoritedAt >= shown[j].favoritedAt {
      assert shown[i] == rows[offset + i] && shown[j] == rows[offset + j];
    }
    forall v | v in shown
      ensures v.isFavorited && v.product in products && HasFavorite(favorites, userId, v.product.id)
    {
      var k :| 0 <= k < |shown| && shown[k] == v;
      assert rows[offset + k] in multiset(joined);
      var f :| f in mine && f.productId == v.product.id && f.createdAt == v.favoritedAt;
      assert f in favorites;
    }
  }

  /** Every favorite of the user appears in the favorites listing, across
      its pages, with its product and its timestamp. */
  lemma EveryFavoriteListed(favorites: seq<Favorite>, products: seq<Product>, users: seq<User>, userId: int)
    requires forall f | f in favorites :: HasProduct(products, f.productId)
    ensures forall f | f in favorites && f.userId == userId ::
      exists v | v in SortFavorites(JoinProducts(FavoritesOf(favorites, userId), products, users)) ::
        v.product.id == f.productId && v.favoritedAt == f.createdAt
  {
    var joined := JoinProducts(FavoritesOf(favorites, userId), products, users);
    var rows := SortFavorites(joined);
    forall f | f in favorites && f.userId == userId
      ensures exists v | v in rows :: v.product.id == f.productId && v.favoritedAt == f.createdAt
    {
      JoinFindsFavorite(FavoritesOf(favorites, userId), products, users, f);
      var v :| v in joined && v.product.id == f.productId && v.favoritedAt == f.createdAt;
      assert v in multiset(rows);
    }
  }

  /** `ORDER BY f.created_at DESC`: a permutation, newest favorite first. */
  function SortFavorites(views: seq<FavoriteView>): (r: seq<FavoriteView>)
    ensures multiset(r) == multiset(views) && |r| == |views|
    ensures forall i, j | 0 <= i < j < |r| :: r[i].favoritedAt >= r[j].favoritedAt
  {
    var r := SortBy(views, (v: FavoriteView) => Num(v.favoritedAt), Desc);
    assert |r| == |multiset(r)| == |multiset(views)| == |views|;
    r
  }
}
