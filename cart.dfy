/** `CartView.delete`: the caller's cart is cleared by deleting, from the cart
    table, every row whose owner is the caller. */
module Cart {
  import opened Http
  import opened Permissions

  /** One row of the cart table: its primary key, its owner, the menu item
      and the quantity. Prices are carried by the table but play no part in
      clearing it. */
  datatype CartRow = CartRow(id: nat, user: UserId, menuItem: nat, quantity: int)

  /** The rows owned by `u`, in table order: `Cart.objects.filter(user__pk=u)`. */
  function RowsOf(rows: seq<CartRow>, u: UserId): seq<CartRow>
  {
    if rows == [] then []
    else if rows[0].user == u then [rows[0]] + RowsOf(rows[1..], u)
    else RowsOf(rows[1..], u)
  }

  /** The table once the rows owned by `u` are deleted, in table order. Every
      row of another owner stays as often as it was there; no row of `u` stays. */
  function RowsNotOwnedBy(rows: seq<CartRow>, u: UserId): (r: seq<CartRow>)
    ensures forall x :: multiset(r)[x] == if x.user == u then 0 else multiset(rows)[x]
  {
    if rows == [] then []
    else
      assert rows == [rows[0]] + rows[1..];
      if rows[0].user == u then RowsNotOwnedBy(rows[1..], u)
      else [rows[0]] + RowsNotOwnedBy(rows[1..], u)
  }

  /** After clearing, the caller has no cart rows. */
  lemma {:induction false} CallerCartEmptied(rows: seq<CartRow>, u: UserId)
    ensures RowsOf(RowsNotOwnedBy(rows, u), u) == []
  {
    if rows != [] {
      CallerCartEmptied(rows[1..], u);
    }
  }

  /** Clearing one user's cart leaves every other user's cart exactly as it
      was, rows and order alike. */
  lemma {:induction false} OtherCartsUntouched(rows: seq<CartRow>, u: UserId, v: UserId)
    requires v != u
    ensures RowsOf(RowsNotOwnedBy(rows, u), v) == RowsOf(rows, v)
  {
    if rows != [] {
      OtherCartsUntouched(rows[1..], u, v);
      if rows[0].user != u {
        assert ([rows[0]] + RowsNotOwnedBy(rows[1..], u))[1..] == RowsNotOwnedBy(rows[1..], u);
      }
    }
  }

  /** The table shrinks by exactly the caller's rows. */
  lemma {:induction false} ClearedCount(rows: seq<CartRow>, u: UserId)
    ensures |RowsNotOwnedBy(rows, u)| + |RowsOf(rows, u)| == |rows|
  {
    if rows != [] {
      ClearedCount(rows[1..], u);
    }
  }

  /** Clearing an already cleared cart changes nothing. */
  lemma {:induction false} ClearIdempotent(rows: seq<CartRow>, u: UserId)
    ensures RowsNotOwnedBy(RowsNotOwnedBy(rows, u), u) == RowsNotOwnedBy(rows, u)
  {
    if rows != [] {
      ClearIdempotent(rows[1..], u);
      if rows[0].user != u {
        assert ([rows[0]] + RowsNotOwnedBy(rows[1..], u))[1..] == RowsNotOwnedBy(rows[1..], u);
      }
    }
  }

  const CartCleared := Response(HTTP_200_OK, Message("User deleted Cart successfully"))

  /** The cart table. */
  class CartTable {
    var rows: seq<CartRow>

    constructor (initial: seq<CartRow>)
      ensures rows == initial
    {
      rows := initial;
    }

    /** `CartView.delete`, with the framework's `IsAuthenticated` check
        first: an authenticated caller's rows are deleted and the answer is
        always the same 200, even when there was nothing to delete. */
    method Delete(who: Requester) returns (resp: Response)
      modifies this
      ensures who.Anonymous? ==> resp == PermissionDenied && rows == old(rows)
      ensures who.User? ==> resp == CartCleared && rows == RowsNotOwnedBy(old(rows), who.pk)
    {
      // IsAuthenticated does not look at groups
      var allowed := CheckPermissions(CartViewPermissions, Caller(who.User?, {}));
      if !allowed {
        return PermissionDenied;
      }
      rows := RowsNotOwnedBy(rows, who.pk);
      return CartCleared;
    }
  }
}
