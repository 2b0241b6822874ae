/** The three tables of the SQLite schema, their constraints, and the
    table updates the route handlers perform. */
module Schema {
  import opened Http
  import opened Rows
  import opened Credentials

  /** A `users` row. `createdAt` is the `CURRENT_TIMESTAMP` default. */
  datatype User = User(id: int, username: string, email: string, password: PasswordHash, createdAt: int)

  /** A `products` row; `price` is in cents, `sellerId` may be NULL. */
  datatype Product = Product(
    id: int, title: string, description: string, price: int, image: string,
    category: string, sellerId: Option<int>, createdAt: int, updatedAt: int)

  /** A `favorites` row. */
  datatype Favorite = Favorite(id: int, userId: int, productId: int, createdAt: int)

  /** The column defaults `image TEXT DEFAULT ''` and `category TEXT DEFAULT 'general'`. */
  const DefaultImage := ""
  const DefaultCategory := "general"

  function PublicOf(u: User): PublicUser {
    PublicUser(u.id, u.username, u.email)
  }

  predicate HasUser(users: seq<User>, id: int) {
    exists u | u in users :: u.id == id
  }

  predicate HasProduct(products: seq<Product>, id: int) {
    exists p | p in products :: p.id == id
  }

  predicate HasFavorite(favorites: seq<Favorite>, userId: int, productId: int) {
    exists f | f in favorites :: f.userId == userId && f.productId == productId
  }

  /** Rowid order plus `UNIQUE` on `username` and on `email`. */
  predicate UserPrecedes(a: User, b: User) {
    a.id < b.id && a.username != b.username && a.email != b.email
  }

  predicate ProductPrecedes(a: Product, b: Product) {
    a.id < b.id
  }

  /** Rowid order plus `UNIQUE(user_id, product_id)`. */
  predicate FavoritePrecedes(a: Favorite, b: Favorite) {
    a.id < b.id && (a.userId != b.userId || a.productId != b.productId)
  }

  /** The lengths and price the create and update handlers accept. */
  predicate WellFormedProduct(p: Product) {
    2 <= |p.title| <= 200 && 10 <= |p.description| <= 2000 && p.price >= 1
  }

  /** The username length the register handler accepts. */
  predicate WellFormedUser(u: User) {
    3 <= |u.username| <= 30
  }

  /** The schema's constraints with foreign keys on, and the AUTOINCREMENT
      counters (the largest id each table has ever issued). */
  predicate Consistent(
    users: seq<User>, products: seq<Product>, favorites: seq<Favorite>,
    userSeq: nat, productSeq: nat, favoriteSeq: nat)
  {
    && Pairwise(users, UserPrecedes)
    && Pairwise(products, ProductPrecedes)
    && Pairwise(favorites, FavoritePrecedes)
    && (forall u | u in users :: 1 <= u.id <= userSeq && WellFormedUser(u))
    && (forall p | p in products ::
          && 1 <= p.id <= productSeq && WellFormedProduct(p)
          && (p.sellerId.Some? ==> HasUser(users, p.sellerId.value)))
    && (forall f | f in favorites ::
          1 <= f.id <= favoriteSeq && HasUser(users, f.userId) && HasProduct(products, f.productId))
  }

  /** What the invariant gives row by row: the id is a key of each table,
      no two users share a username or an email, and no two favorites share
      a (user, product) pair. */
  lemma ConsistentKeys(
    users: seq<User>, products: seq<Product>, favorites: seq<Favorite>,
    userSeq: nat, productSeq: nat, favoriteSeq: nat)
    requires Consistent(users, products, favorites, userSeq, productSeq, favoriteSeq)
    ensures forall u, v | u in users && v in users && u != v ::
      u.id != v.id && u.username != v.username && u.email != v.email
    ensures forall p, q | p in products && q in products && p != q :: p.id != q.id
    ensures forall f, g | f in favorites && g in favorites && f != g ::
      f.id != g.id && (f.userId != g.userId || f.productId != g.productId)
  {
    PairwiseDistinct(users, UserPrecedes);
    PairwiseDistinct(products, ProductPrecedes);
    PairwiseDistinct(favorites, FavoritePrecedes);
  }

  /** A constraint that holds between every earlier and later row holds,
      one way or the other, between any two different rows. */
  lemma PairwiseDistinct<T>(s: seq<T>, ok: (T, T) -> bool)
    requires Pairwise(s, ok)
    ensures forall a, b | a in s && b in s && a != b :: ok(a, b) || ok(b, a)
  {
    forall a, b | a in s && b in s && a != b
      ensures ok(a, b) || ok(b, a)
    {
      var i :| 0 <= i < |s| && s[i] == a;
      var j :| 0 <= j < |s| && s[j] == b;
      assert i != j;
    }
  }

  /** With foreign keys on, every favorite names an existing product. */
  lemma FavoritesHaveProducts(
    users: seq<User>, products: seq<Product>, favorites: seq<Favorite>,
    userSeq: nat, productSeq: nat, favoriteSeq: nat, mine: seq<Favorite>)
    requires Consistent(users, products, favorites, userSeq, productSeq, favoriteSeq)
    requires forall f | f in mine :: f in favorites
    ensures forall f | f in mine :: HasProduct(products, f.productId)
  {
  }

  /** `SELECT * FROM products WHERE id = ?`. */
  function FindProduct(products: seq<Product>, id: int): (r: Option<Product>)
    ensures r.Some? <==> HasProduct(products, id)
    ensures r.Some? ==> r.value in products && r.value.id == id
  {
    First(products, (p: Product) => p.id == id)
  }

  /** `SELECT * FROM users WHERE id = ?`. */
  function FindUser(users: seq<User>, id: int): (r: Option<User>)
    ensures r.Some? <==> HasUser(users, id)
    ensures r.Some? ==> r.value in users && r.value.id == id
  {
    First(users, (u: User) => u.id == id)
  }

  /** `SELECT * FROM users WHERE email = ?`. */
  function FindUserByEmail(users: seq<User>, email: string): (r: Option<User>)
    ensures r.Some? <==> exists u | u in users :: u.email == email
    ensures r.Some? ==> r.value in users && r.value.email == email
  {
    First(users, (u: User) => u.email == email)
  }

  /** With unique emails, the row `SELECT ... WHERE email = ?` finds is
      the only row with that email. */
  lemma EmailIdentifiesUser(users: seq<User>, u: User)
    requires Pairwise(users, UserPrecedes) && u in users
    ensures forall v | v in users && v.email == u.email :: v == u
  {
    var j :| 0 <= j < |users| && users[j] == u;
    forall i | 0 <= i < |users| && i != j ensures users[i].email != u.email {
      if i < j {
        assert UserPrecedes(users[i], users[j]);
      } else {
        assert UserPrecedes(users[j], users[i]);
      }
    }
  }

  /** `DELETE FROM products WHERE id = ?`. */
  function WithoutProduct(products: seq<Product>, id: int): (r: seq<Product>)
    ensures !HasProduct(r, id)
    ensures forall p | p in products && p.id != id :: p in r
    ensures forall p | p in r :: p in products
  {
    Where(products, (p: Product) => p.id != id)
  }

  /** `ON DELETE CASCADE` from products: the favorites of a deleted product go. */
  function WithoutProductFavorites(favorites: seq<Favorite>, productId: int): (r: seq<Favorite>)
    ensures forall f | f in r :: f in favorites && f.productId != productId
    ensures forall f | f in favorites && f.productId != productId :: f in r
  {
    Where(favorites, (f: Favorite) => f.productId != productId)
  }

  /** `DELETE FROM favorites WHERE user_id = ? AND product_id = ?`. */
  function WithoutPair(favorites: seq<Favorite>, userId: int, productId: int): (r: seq<Favorite>)
    ensures !HasFavorite(r, userId, productId)
    ensures forall f | f in r :: f in favorites
    ensures forall f | f in favorites && (f.userId != userId || f.productId != productId) :: f in r
  {
    Where(favorites, (f: Favorite) => f.userId != userId || f.productId != productId)
  }

  /** `UPDATE products SET ... WHERE id = row.id`: the row with that id
      becomes `row`, every other row and the table order stay. */
  function ReplaceProduct(products: seq<Product>, row: Product): (r: seq<Product>)
    ensures |r| == |products|
    ensures forall i | 0 <= i < |r| :: r[i].id == products[i].id
    ensures forall i | 0 <= i < |r| :: r[i] == if products[i].id == row.id then row else products[i]
  {
    seq(|products|, i requires 0 <= i < |products| => if products[i].id == row.id then row else products[i])
  }

  /** Reading a product back by its id after the update gives the row the
      update wrote. */
  lemma FindReplaced(products: seq<Product>, row: Product)
    requires HasProduct(products, row.id)
    ensures FindProduct(ReplaceProduct(products, row), row.id) == Some(row)
  {
    var r := ReplaceProduct(products, row);
    var i :| 0 <= i < |products| && products[i].id == row.id;
    assert r[i] == row && r[i] in r;
    var found := FindProduct(r, row.id).value;
    var j :| 0 <= j < |r| && r[j] == found;
    assert products[j].id == found.id == row.id;
  }

  /** Deleting a row by a unique key removes exactly one row. */
  lemma {:induction false} WhereDropsUnique<T>(s: seq<T>, keep: T -> bool, ok: (T, T) -> bool)
    requires Pairwise(s, ok)
    requires forall a, b | a in s && b in s && !keep(a) && !keep(b) :: !ok(a, b)
    requires exists x | x in s :: !keep(x)
    ensures |Where(s, keep)| == |s| - 1
  {
    if keep(s[0]) {
      WherePairwise(s, (x: T) => true, ok);
      assert Pairwise(s[1..], ok) by {
        forall i, j | 0 <= i < j < |s[1..]| ensures ok(s[1..][i], s[1..][j]) {
          assert s[1..][i] == s[i + 1] && s[1..][j] == s[j + 1];
        }
      }
      var x :| x in s && !keep(x);
      assert x in s[1..];
      WhereDropsUnique(s[1..], keep, ok);
    } else {
      forall y | y in s[1..] ensures keep(y) {
        var k :| 0 <= k < |s[1..]| && s[1..][k] == y;
        assert ok(s[0], s[k + 1]);
      }
      WhereKeepsAll(s[1..], keep);
    }
  }

  /** Deleting an existing product removes exactly one row. */
  lemma DeleteRemovesOneProduct(products: seq<Product>, id: int)
    requires Pairwise(products, ProductPrecedes)
    requires HasProduct(products, id)
    ensures |WithoutProduct(products, id)| == |products| - 1
  {
    WhereDropsUnique(products, (p: Product) => p.id != id, ProductPrecedes);
  }

  /** Removing an existing favorite removes exactly one row. */
  lemma RemoveDropsOneFavorite(favorites: seq<Favorite>, userId: int, productId: int)
    requires Pairwise(favorites, FavoritePrecedes)
    requires HasFavorite(favorites, userId, productId)
    ensures |WithoutPair(favorites, userId, productId)| == |favorites| - 1
  {
    WhereDropsUnique(favorites, (f: Favorite) => f.userId != userId || f.productId != productId, FavoritePrecedes);
  }

  /** The `changes` count of a favorite delete is zero exactly when the pair
      was absent, and then the table is unchanged. */
  lemma RemoveAbsentFavorite(favorites: seq<Favorite>, userId: int, productId: int)
    ensures |WithoutPair(favorites, userId, productId)| < |favorites| <==> HasFavorite(favorites, userId, productId)
    ensures !HasFavorite(favorites, userId, productId) ==> WithoutPair(favorites, userId, productId) == favorites
  {
    var keep := (f: Favorite) => f.userId != userId || f.productId != productId;
    WhereDropsSome(favorites, keep);
    if !HasFavorite(favorites, userId, productId) {
      WhereKeepsAll(favorites, keep);
    }
  }

  /** Adding a new pair and then removing it gives back the table it was
      added to. */
  lemma AddThenRemove(favorites: seq<Favorite>, added: Favorite)
    requires !HasFavorite(favorites, added.userId, added.productId)
    ensures WithoutPair(favorites + [added], added.userId, added.productId) == favorites
  {
    var keep := (f: Favorite) => f.userId != added.userId || f.productId != added.productId;
    WhereAppend(favorites, [added], keep);
    WhereKeepsAll(favorites, keep);
  }

  lemma InsertUserConsistent(
    users: seq<User>, products: seq<Product>, favorites: seq<Favorite>,
    userSeq: nat, productSeq: nat, favoriteSeq: nat, u: User)
    requires Consistent(users, products, favorites, userSeq, productSeq, favoriteSeq)
    requires u.id == userSeq + 1 && WellFormedUser(u)
    requires forall v | v in users :: v.username != u.username && v.email != u.email
    ensures Consistent(users + [u], products, favorites, userSeq + 1, productSeq, favoriteSeq)
  {
    AppendPairwise(users, u, UserPrecedes);
    forall id | HasUser(users, id) ensures HasUser(users + [u], id) {
      var v :| v in users && v.id == id;
      assert v in users + [u];
    }
  }

  lemma InsertProductConsistent(
    users: seq<User>, products: seq<Product>, favorites: seq<Favorite>,
    userSeq: nat, productSeq: nat, favoriteSeq: nat, p: Product)
    requires Consistent(users, products, favorites, userSeq, productSeq, favoriteSeq)
    requires p.id == productSeq + 1 && WellFormedProduct(p)
    requires p.sellerId.Some? ==> HasUser(users, p.sellerId.value)
    ensures Consistent(users, products + [p], favorites, userSeq, productSeq + 1, favoriteSeq)
  {
    AppendPairwise(products, p, ProductPrecedes);
    forall id | HasProduct(products, id) ensures HasProduct(products + [p], id) {
      var q :| q in products && q.id == id;
      assert q in products + [p];
    }
  }

  lemma InsertFavoriteConsistent(
    users: seq<User>, products: seq<Product>, favorites: seq<Favorite>,
    userSeq: nat, productSeq: nat, favoriteSeq: nat, f: Favorite)
    requires Consistent(users, products, favorites, userSeq, productSeq, favoriteSeq)
    requires f.id == favoriteSeq + 1 && HasUser(users, f.userId) && HasProduct(products, f.productId)
    requires !HasFavorite(favorites, f.userId, f.productId)
    ensures Consistent(users, products, favorites + [f], userSeq, productSeq, favoriteSeq + 1)
  {
    AppendPairwise(favorites, f, FavoritePrecedes);
  }

  lemma ReplaceProductConsistent(
    users: seq<User>, products: seq<Product>, favorites: seq<Favorite>,
    userSeq: nat, productSeq: nat, favoriteSeq: nat, row: Product)
    requires Consistent(users, products, favorites, userSeq, productSeq, favoriteSeq)
    requires WellFormedProduct(row)
    requires exists p | p in products :: p.id == row.id && p.sellerId == row.sellerId
    ensures Consistent(users, ReplaceProduct(products, row), favorites, userSeq, productSeq, favoriteSeq)
  {
    var r := ReplaceProduct(products, row);
    forall p | p in r
      ensures 1 <= p.id <= productSeq && WellFormedProduct(p)
      ensures p.sellerId.Some? ==> HasUser(users, p.sellerId.value)
    {
      var i :| 0 <= i < |r| && r[i] == p;
      assert products[i] in products;
    }
    forall id | HasProduct(products, id) ensures HasProduct(r, id) {
      var i :| 0 <= i < |products| && products[i].id == id;
      assert r[i] in r;
    }
  }

  lemma DeleteProductConsistent(
    users: seq<User>, products: seq<Product>, favorites: seq<Favorite>,
    userSeq: nat, productSeq: nat, favoriteSeq: nat, id: int)
    requires Consistent(users, products, favorites, userSeq, productSeq, favoriteSeq)
    ensures Consistent(users, WithoutProduct(products, id), WithoutProductFavorites(favorites, id),
                       userSeq, productSeq, favoriteSeq)
  {
    WherePairwise(products, (p: Product) => p.id != id, ProductPrecedes);
    WherePairwise(favorites, (f: Favorite) => f.productId != id, FavoritePrecedes);
    var ps := WithoutProduct(products, id);
    forall f | f in WithoutProductFavorites(favorites, id) ensures HasProduct(ps, f.productId) {
      var p :| p in products && p.id == f.productId;
      assert p in ps;
    }
  }

  lemma RemovePairConsistent(
    users: seq<User>, products: seq<Product>, favorites: seq<Favorite>,
    userSeq: nat, productSeq: nat, favoriteSeq: nat, userId: int, productId: int)
    requires Consistent(users, products, favorites, userSeq, productSeq, favoriteSeq)
    ensures Consistent(users, products, WithoutPair(favorites, userId, productId),
                       userSeq, productSeq, favoriteSeq)
  {
    WherePairwise(favorites, (f: Favorite) => f.userId != userId || f.productId != productId, FavoritePrecedes);
  }
}
