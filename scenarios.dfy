/** Properties that span two requests, stated as clients of `Store`: what a
    caller can rely on from the handlers' contracts alone. */
module Scenarios {
  import opened Http
  import opened Credentials
  import opened Schema
  import opened Validation
  import opened Marketplace

  /** Adding a favorite and then removing the same product leaves the
      favorites table exactly as it was before the add. */
  method AddThenRemoveFavorite(store: Store, caller: int, productId: int, now: int)
    returns (added: Reply<string>, removed: Reply<string>)
    requires store.Valid()
    modifies store
    ensures store.Valid()
    ensures added.Success? ==> removed == Success(Ok, FavoriteRemoved) && store.favorites == old(store.favorites)
  {
    ghost var before := store.favorites;
    added := store.AddFavorite(caller, productId, now);
    if added.Success? {
      AddThenRemove(before, Favorite(old(store.favoriteSeq) + 1, caller, productId, now));
      assert HasFavorite(store.favorites, caller, productId) by {
        assert store.favorites[|store.favorites| - 1] in store.favorites;
      }
    }
    removed := store.RemoveFavorite(caller, productId);
  }

  /** Registering the same body twice: the second attempt is a conflict
      and adds no user. */
  method RegisterTwice(store: Store, input: RegisterInput, checkEmail: EmailCheck, salt: nat, salt': nat, now: int)
    returns (first: Reply<AuthBody>, second: Reply<AuthBody>)
    requires store.Valid()
    modifies store
    ensures store.Valid()
    ensures first.Success? ==> second == Failure(Conflict, [UserExists]) && |store.users| == |old(store.users)| + 1
  {
    first := store.Register(input, checkEmail, salt, now);
    if first.Success? {
      assert store.users[|store.users| - 1] in store.users;
    }
    second := store.Register(input, checkEmail, salt', now);
  }

  /** A user who has just registered can log in with the same email and
      password, and the login returns the same public user. */
  method RegisterThenLogin(store: Store, input: RegisterInput, checkEmail: EmailCheck, salt: nat, now: int)
    returns (registered: Reply<AuthBody>, loggedIn: Reply<AuthBody>)
    requires store.Valid()
    modifies store
    ensures store.Valid()
    ensures registered.Success? ==> loggedIn.Success? && loggedIn.value.user == registered.value.user
  {
    registered := store.Register(input, checkEmail, salt, now);
    if registered.Success? {
      var u := store.users[|store.users| - 1];
      assert u in store.users;
      CompareHash(OrEmpty(input.password), OrEmpty(input.password), salt);
      EmailIdentifiesUser(store.users, u);
    }
    loggedIn := store.Login(LoginInput(input.email, input.password), checkEmail);
  }

  /** After its seller deletes a product, reading it is a 404. */
  method DeleteThenGet(store: Store, caller: int, id: int, viewer: Option<int>)
    returns (deleted: Reply<string>, read: Reply<Queries.ProductView>)
    requires store.Valid()
    modifies store
    ensures store.Valid()
    ensures deleted.Success? ==> read == Failure(NotFound, [ProductNotFound])
  {
    deleted := store.DeleteProduct(caller, id);
    read := store.GetProduct(id, viewer);
  }
}
