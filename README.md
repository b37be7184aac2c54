# Little Lemon REST API: the logic of the views, in Dafny

The Little Lemon API is a restaurant-ordering service built on Django REST
Framework. Almost all of it is declarative framework configuration. The logic
that the repository writes itself lives in `Api/views.py`, and this project
models that logic:

- **Group-name normalisation** (`GroupNames`). The `group_name` URL segment of
  the group endpoints becomes a group name in two steps. Every `-` becomes a
  space, and the hyphens are replaced only when the segment contains one.
  Then Python's `str.capitalize` is applied. The function is `Normalize`,
  built from `ReplaceHyphens` and `Capitalize` (which uses `LowerAll`). The
  lemmas prove what it does character by character. They also prove which
  segments name the same group, that normalising twice changes nothing, and
  that `delivery-crew` and `Delivery Crew` both resolve to `Delivery crew`.
- **Permission classes** (`Permissions`). `IsManager`,
  `IsCustomerOrDeliveryCrew` and the framework's `IsAuthenticated` are
  modelled as `Grants`. `MenuItemsView.get_permissions` is
  `MenuItemsPermissions`. The framework rule that every permission class of
  a view must grant the request is `CheckPermissions`.
- **Group membership** (`Membership`). The database is reduced to a
  `Directory`: the set of user primary keys plus, for each group name, the
  set of its members. `UserInGroupView.get` and `UserInGroupView.delete` are
  the methods `Get` and `Delete` of the class `GroupStore`, which holds that
  state in fields. `Delete` updates the membership map in place. Each method
  is proved against a specification function. `ListMembers` specifies `Get`.
  `DeleteRequest` specifies `Delete`: it runs the permission check and then
  `RemoveMember`, the view body with its four guards in the source's order.
  The lemmas state each error case and the success case. They also prove
  that repeating a successful removal is refused, and that listing the group
  afterwards shows the removal.
- **Cart clearing** (`Cart`). `CartView.delete` is the method `Delete` of
  `CartTable`, a class whose `rows` field holds the cart table. The method
  replaces the table with `RowsNotOwnedBy(rows, caller)`. Lemmas prove that
  the caller's cart ends up empty, that every other user's cart is unchanged
  (same rows, same order), how many rows are deleted, and that clearing twice
  is the same as clearing once.
- `Http` holds the shared shapes: `Requester` (an anonymous or a stored
  user), `Response` (a status code and a body), and the status constants.

The framework answers a refused permission check before the view runs. That
answer is modelled as the single response `PermissionDenied` (403).

## Model

| member | source | states |
|---|---|---|
| GroupNames.ReplaceHyphensAt | Api/views.py:55-56 | `replace("-", " ")` turns every `-` into a space and keeps every other character in its place |
| GroupNames.LowerAllAt | Api/views.py:57 | the lower-casing part of `capitalize` lowers each character in place |
| GroupNames.NormalizeAt | Api/views.py:55-57 | the looked-up name has the segment's length and contains no `-`; its first character is the upper case of the first segment character (with `-` read as a space), and every later character is the lower case |
| GroupNames.NormalizeSameIff | Api/views.py:55-57 | two segments resolve to the same name exactly when they have the same length and agree character by character, ignoring case and reading `-` as a space |
| GroupNames.NormalizeIdempotent | Api/views.py:55-57 | normalising an already normalised name changes nothing |
| GroupNames.OnlyNormalNamesReachable | Api/views.py:57 | any name a segment resolves to is in normal form, so a stored group whose name is not in normal form can never be found |
| GroupNames.HyphenatedExample | Api/views.py:55-57 | the segment `delivery-crew` resolves to `Delivery crew` |
| GroupNames.SpacedExample | Api/views.py:55-57 | `Delivery Crew` and `delivery-crew` resolve to the same name |
| Permissions.CheckPermissions | Api/views.py:50-51 | a view lets a request through exactly when every one of its permission classes grants it |
| Permissions.UserInGroupViewAllowedIff | Api/views.py:12-14 | the group endpoints admit exactly the authenticated callers who belong to the group named `Manager` |
| Permissions.ManagerNameIsExact | Api/views.py:14 | the group test is exact: a caller whose only group is `manager` is refused |
| Permissions.MenuItemsAllowedIff | Api/views.py:32-35 | the menu-item list admits every `GET` and otherwise only authenticated callers |
| Permissions.CustomerOrDeliveryCrewIff | Api/views.py:17-20 | `IsCustomerOrDeliveryCrew` grants exactly authenticated members of `Delivery crew`, so a customer with no group is refused |
| Membership.GateIffManager | Api/views.py:51 | the permission check of `UserInGroupView`, with the caller's groups read from the directory, passes exactly for a stored member of the group `Manager` |
| Membership.ListMembers | Api/views.py:53-63 | a non-manager gets the permission denial; a manager gets 404 `Group does not exist` when no group has the normalised name, and otherwise 200 with that group's current member set |
| Membership.RemoveMember | Api/views.py:65-85 | the user set and the set of groups never change; groups other than the named one never change; in the named group at most `target` is removed; the directory changes exactly when the answer is the 200 success; the caller's own memberships never change; well-formedness (members are stored users) is preserved |
| Membership.DeleteRequest | Api/views.py:50-51 | a non-manager's delete is refused and changes nothing; a manager's delete is `RemoveMember` with the manager as caller |
| Membership.MissingGroupOnBothEndpoints | Api/views.py:54-71 | with no group under the normalised name, both GET and DELETE answer 404 `Group does not exist`, and the directory is unchanged |
| Membership.UnknownUserRejected | Api/views.py:73-76 | once the group is found, an unknown user id gets 404 `User does not exist` and changes nothing |
| Membership.NonMemberRejected | Api/views.py:78-82 | a stored user who is not in the group gets 400 and nothing changes, whoever the caller is; a caller naming themself also gets 400, not 403 |
| Membership.SelfRemovalRejected | Api/views.py:81-82 | a member who names themself gets 403 `You can't delete yourself` and stays in the group |
| Membership.RemovalSucceeds | Api/views.py:84-85 | when every guard passes, the answer is 200 `User deleted successfully`, the user set is unchanged, and the group map differs only in the named group, which loses exactly `target` |
| Membership.RepeatedRemovalRejected | Api/views.py:78-85 | repeating a successful removal gets 400 and changes nothing |
| Membership.ListAfterRemoval | Api/views.py:53-85 | after a successful removal, the same manager listing the same group gets 200 with the old members minus `target` |
| Membership.GroupStore.Get | Api/views.py:53-63 | the imperative `get` answers what `ListMembers` specifies for the current contents |
| Membership.GroupStore.Delete | Api/views.py:65-85 | the imperative `delete` returns the response `DeleteRequest` gives for the old contents, and leaves the contents it gives |
| Cart.RowsNotOwnedBy | Api/views.py:94-95 | after the deletion, no row of the caller remains and every other row remains as many times as before |
| Cart.CallerCartEmptied | Api/views.py:94-95 | after clearing, the caller owns no cart row |
| Cart.OtherCartsUntouched | Api/views.py:94-95 | every other user's cart keeps the same rows in the same order |
| Cart.ClearedCount | Api/views.py:94-95 | the table shrinks by exactly the number of the caller's rows |
| Cart.ClearIdempotent | Api/views.py:94-95 | clearing an already cleared cart changes nothing |
| Cart.CartTable.Delete | Api/views.py:88-96 | an anonymous caller is refused and the table is unchanged; an authenticated caller's rows are deleted and the answer is always 200 `User deleted Cart successfully` |

## Left out

- The framework's generic views are not modelled: `MenuItemsView` list and create, `MenuItemDetailView`, the listing and adding of cart rows in `CartView`, `OrderView` and `OrderDetailView`. Their behaviour lives in Django REST Framework, not in this repository.
- Order placement, order totals and per-role order visibility are not modelled. The code has no such logic: `OrderView` and `OrderDetailView` are bare generic views, so a cart-to-order conversion or role-based order scoping would have to be invented.
- `MenuItemsView.get_queryset` and its title filter are not modelled. It is an ORM lookup on a field, `menuitem_title`, that the model definitions are needed to interpret. Those definitions (`Api/models.py`) are not part of this model. The ordering, filter and search settings are framework configuration.
- Serializers are not modelled; they are declarative field lists. The serialised user records of `get` are reduced to the set of user ids.
- URL routing is not modelled. `Api/urls.py` refers to a `CategoriesView` that `Api/views.py` does not define.
- Authentication (djoser tokens), the admin site and the database are left out. Group lookup is exact string equality. User identity is primary-key equality.
- PermissionDenied: every refused permission check is answered with 403. The framework answers 401 instead for an unauthenticated request when its authenticator supplies a `WWW-Authenticate` header; which one applies depends on settings that are not part of this model.
- GroupNames.Capitalize: case mapping is ASCII only. Python's `capitalize` also maps non-ASCII letters and title-cases the first character; those mappings are not modelled.
- The caller's groups for the permission check are read from the same directory the view changes. Transactions and concurrent requests are not modelled: each request runs alone.
- Prices and totals are not modelled, since clearing a cart does not depend on them.
