/** Who may call which view: the permission classes of the views module and
    the framework rule that a request goes through only when every permission
    class of the view grants it. */
module Permissions {

  /** Group names the permission classes test, compared exactly. */
  const ManagerGroup := "Manager"
  const DeliveryCrewGroup := "Delivery crew"

  /** What a permission class may look at: whether `request.user` is
      authenticated and the names of the groups it belongs to. */
  datatype Caller = Caller(authenticated: bool, groups: set<string>)

  /** The permission classes used by the views. */
  datatype Permission =
    | IsAuthenticated           // the framework's class
    | IsManager                 // views.IsManager
    | IsCustomerOrDeliveryCrew  // views.IsCustomerOrDeliveryCrew

  /** `has_permission` of each class. */
  function Grants(p: Permission, c: Caller): bool
  {
    match p
    case IsAuthenticated => c.authenticated
    case IsManager => c.authenticated && ManagerGroup in c.groups
    case IsCustomerOrDeliveryCrew => c.authenticated && DeliveryCrewGroup in c.groups
  }

  /** The framework's check: the request is let through exactly when every
      permission class of the view grants it; an empty list lets everyone in. */
  function CheckPermissions(ps: seq<Permission>, c: Caller): (allowed: bool)
    ensures allowed <==> forall i :: 0 <= i < |ps| ==> Grants(ps[i], c)
  {
    if ps == [] then true else Grants(ps[0], c) && CheckPermissions(ps[1..], c)
  }

  /** `UserInGroupView.permission_classes`. */
  const UserInGroupViewPermissions := [IsManager]

  /** `CartView.permission_classes`. */
  const CartViewPermissions := [IsAuthenticated]

  /** `MenuItemsView.get_permissions`: no check for reading, authentication
      for every other HTTP method. */
  function MenuItemsPermissions(httpMethod: string): seq<Permission>
  {
    if httpMethod == "GET" then [] else [IsAuthenticated]
  }

  /** Both group endpoints admit exactly the authenticated members of the
      group named `Manager`. */
  lemma UserInGroupViewAllowedIff(c: Caller)
    ensures CheckPermissions(UserInGroupViewPermissions, c) <==>
      c.authenticated && "Manager" in c.groups
  {
  }

  /** The `Manager` test is exact: a group spelt `manager` does not qualify. */
  lemma ManagerNameIsExact(c: Caller)
    requires c.groups == {"manager"}
    ensures !CheckPermissions(UserInGroupViewPermissions, c)
  {
  }

  /** The menu-item list is open for reading and needs authentication for
      anything else, whatever groups the caller is in. */
  lemma MenuItemsAllowedIff(httpMethod: string, c: Caller)
    ensures CheckPermissions(MenuItemsPermissions(httpMethod), c) <==>
      httpMethod == "GET" || c.authenticated
  {
  }

  /** Despite its name, `IsCustomerOrDeliveryCrew` admits only members of
      `Delivery crew`: a customer, who is in no group, is refused. */
  lemma CustomerOrDeliveryCrewIff(c: Caller)
    ensures Grants(IsCustomerOrDeliveryCrew, c) <==>
      c.authenticated && "Delivery crew" in c.groups
    ensures c.groups == {} ==> !Grants(IsCustomerOrDeliveryCrew, c)
  {
  }
}
