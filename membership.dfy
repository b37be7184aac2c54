/** `UserInGroupView`: listing the members of a group and removing one user
    from a group, both reserved to managers. The database is reduced to what
    these endpoints touch: the set of user primary keys and, per group name,
    the set of its members. */
module Membership {
  import opened Http
  import opened GroupNames
  import opened Permissions

  /** The user table (by primary key) and the group table with its members. */
  datatype Directory = Directory(users: set<UserId>, groups: map<string, set<UserId>>)

  /** Every group member is a stored user: the membership table references the
      user table. */
  predicate WellFormed(d: Directory)
  {
    forall g :: g in d.groups ==> d.groups[g] <= d.users
  }

  /** `user.groups`: the names of the groups `u` belongs to. */
  function GroupsOf(d: Directory, u: UserId): set<string>
  {
    set g | g in d.groups && u in d.groups[g]
  }

  /** What the permission classes see of `request.user`. */
  function CallerOf(d: Directory, who: Requester): Caller
  {
    match who
    case Anonymous => Caller(false, {})
    case User(pk) => Caller(true, GroupsOf(d, pk))
  }

  /** The requester is a stored user who is a member of the group `Manager`. */
  predicate IsManagerIn(d: Directory, who: Requester)
  {
    who.User? && ManagerGroup in d.groups && who.pk in d.groups[ManagerGroup]
  }

  /** The view's permission check passes exactly for managers. */
  lemma GateIffManager(d: Directory, who: Requester)
    ensures CheckPermissions(UserInGroupViewPermissions, CallerOf(d, who)) <==> IsManagerIn(d, who)
  {
  }

  const GroupMissing := Response(HTTP_404_NOT_FOUND, Error("Group does not exist"))
  const UserMissing := Response(HTTP_404_NOT_FOUND, Error("User does not exist"))
  const NotInGroup := Response(HTTP_400_BAD_REQUEST, Error("User is not in the specified group"))
  const SelfRemoval := Response(HTTP_403_FORBIDDEN, Error("You can't delete yourself"))
  const Removed := Response(HTTP_200_OK, Message("User deleted successfully"))

  /** `get`: the members of the group the URL segment names, 404 when there
      is no such group, and nothing at all for a non-manager. */
  function ListMembers(d: Directory, who: Requester, segment: string): (r: Response)
    ensures !IsManagerIn(d, who) ==> r == PermissionDenied
    ensures IsManagerIn(d, who) && Normalize(segment) !in d.groups ==> r == GroupMissing
    ensures IsManagerIn(d, who) && Normalize(segment) in d.groups ==>
      r == Response(HTTP_200_OK, Users(d.groups[Normalize(segment)]))
  {
    GateIffManager(d, who);
    if !CheckPermissions(UserInGroupViewPermissions, CallerOf(d, who)) then PermissionDenied
    else
      var name := Normalize(segment);
      if name !in d.groups then GroupMissing else Response(HTTP_200_OK, Users(d.groups[name]))
  }

  /** The response of `delete` and the directory it leaves behind. */
  datatype Outcome = Outcome(response: Response, after: Directory)

  /** `delete` once the permission check has passed, for the requesting user
      `caller`: the guards run in the source's order (group, user, membership,
      self) and only when all pass is `target` taken out of the group. Only
      that one membership can change, only on success, and the caller keeps
      every group they are in. */
  function RemoveMember(d: Directory, caller: UserId, segment: string, target: UserId): (r: Outcome)
    ensures r.after.users == d.users && r.after.groups.Keys == d.groups.Keys
    ensures forall h :: h in d.groups && h != Normalize(segment) ==> r.after.groups[h] == d.groups[h]
    ensures forall h :: h in d.groups ==> r.after.groups[h] == d.groups[h] || r.after.groups[h] == d.groups[h] - {target}
    ensures r.after != d <==> r.response == Removed
    ensures GroupsOf(r.after, caller) == GroupsOf(d, caller)
    ensures WellFormed(d) ==> WellFormed(r.after)
  {
    var name := Normalize(segment);
    if name !in d.groups then Outcome(GroupMissing, d)
    else if target !in d.users then Outcome(UserMissing, d)
    else if target !in d.groups[name] then Outcome(NotInGroup, d)
    else if target == caller then Outcome(SelfRemoval, d)
    else
      var after := d.(groups := d.groups[name := d.groups[name] - {target}]);
      assert target !in after.groups[name];
      assert GroupsOf(after, caller) == GroupsOf(d, caller);
      Outcome(Removed, after)
  }

  /** `delete` as the framework runs it: the permission check, then the view. */
  function DeleteRequest(d: Directory, who: Requester, segment: string, target: UserId): (r: Outcome)
    ensures !IsManagerIn(d, who) ==> r == Outcome(PermissionDenied, d)
    ensures IsManagerIn(d, who) ==> r == RemoveMember(d, who.pk, segment, target)
  {
    GateIffManager(d, who);
    if !CheckPermissions(UserInGroupViewPermissions, CallerOf(d, who)) then Outcome(PermissionDenied, d)
    else RemoveMember(d, who.pk, segment, target)
  }

  /** With no group under the normalised name, both endpoints answer
      `Group does not exist` with 404, and the directory is unchanged. */
  lemma MissingGroupOnBothEndpoints(d: Directory, who: Requester, segment: string, target: UserId)
    requires IsManagerIn(d, who) && Normalize(segment) !in d.groups
    ensures ListMembers(d, who, segment) == GroupMissing
    ensures DeleteRequest(d, who, segment, target) == Outcome(GroupMissing, d)
  {
  }

  /** An unknown user id is reported only once the group was found. */
  lemma UnknownUserRejected(d: Directory, caller: UserId, segment: string, target: UserId)
    requires Normalize(segment) in d.groups && target !in d.users
    ensures RemoveMember(d, caller, segment, target) == Outcome(UserMissing, d)
  {
  }

  /** Removing a non-member is a 400, whoever asks: even callers naming
      themselves get this answer rather than the self-removal 403. */
  lemma NonMemberRejected(d: Directory, caller: UserId, segment: string, target: UserId)
    requires Normalize(segment) in d.groups && target in d.users
    requires target !in d.groups[Normalize(segment)]
    ensures RemoveMember(d, caller, segment, target) == Outcome(NotInGroup, d)
    ensures RemoveMember(d, target, segment, target).response.status == HTTP_400_BAD_REQUEST
  {
  }

  /** A member naming themselves is refused with 403 and stays in the group. */
  lemma SelfRemovalRejected(d: Directory, caller: UserId, segment: string)
    requires Normalize(segment) in d.groups && caller in d.users
    requires caller in d.groups[Normalize(segment)]
    ensures RemoveMember(d, caller, segment, caller) == Outcome(SelfRemoval, d)
  {
  }

  /** When every guard passes, exactly `target` leaves exactly that group. */
  lemma RemovalSucceeds(d: Directory, caller: UserId, segment: string, target: UserId)
    requires Normalize(segment) in d.groups && target in d.users
    requires target in d.groups[Normalize(segment)] && target != caller
    ensures var r := RemoveMember(d, caller, segment, target);
      && r.response == Removed
      && r.after.users == d.users
      && r.after.groups == d.groups[Normalize(segment) := d.groups[Normalize(segment)] - {target}]
  {
  }

  /** Sending the same successful removal twice: the second one is refused
      with 400 and changes nothing. */
  lemma RepeatedRemovalRejected(d: Directory, who: Requester, segment: string, target: UserId)
    requires DeleteRequest(d, who, segment, target).response == Removed
    ensures var once := DeleteRequest(d, who, segment, target).after;
      DeleteRequest(once, who, segment, target) == Outcome(NotInGroup, once)
  {
  }

  /** After a successful removal, listing the same group shows the old
      members without `target`: the requesting manager is still allowed. */
  lemma ListAfterRemoval(d: Directory, who: Requester, segment: string, target: UserId)
    requires DeleteRequest(d, who, segment, target).response == Removed
    ensures var once := DeleteRequest(d, who, segment, target).after;
      ListMembers(once, who, segment) ==
        Response(HTTP_200_OK, Users(d.groups[Normalize(segment)] - {target}))
  {
  }

  /** The database behind the view. */
  class GroupStore {
    var users: set<UserId>
    var groups: map<string, set<UserId>>

    /** The current contents as a value. */
    function Snapshot(): Directory
      reads this
    {
      Directory(users, groups)
    }

    constructor (d: Directory)
      ensures Snapshot() == d
    {
      users := d.users;
      groups := d.groups;
    }

    /** `UserInGroupView.get`, with the framework's permission check first. */
    method Get(who: Requester, segment: string) returns (resp: Response)
      ensures resp == ListMembers(Snapshot(), who, segment)
    {
      var allowed := CheckPermissions(UserInGroupViewPermissions, CallerOf(Snapshot(), who));
      GateIffManager(Snapshot(), who);
      if !allowed {
        return PermissionDenied;
      }
      var name := segment;
      if '-' in name {
        name := ReplaceHyphens(name);
      }
      name := Capitalize(name);
      if name !in groups {
        return GroupMissing;
      }
      return Response(HTTP_200_OK, Users(groups[name]));
    }

    /** `UserInGroupView.delete`, with the framework's permission check first:
        the response and the new contents are those `DeleteRequest` gives for
        the old contents. */
    method Delete(who: Requester, segment: string, target: UserId) returns (resp: Response)
      modifies this
      ensures Outcome(resp, Snapshot()) == DeleteRequest(old(Snapshot()), who, segment, target)
    {
      var allowed := CheckPermissions(UserInGroupViewPermissions, CallerOf(Snapshot(), who));
      GateIffManager(Snapshot(), who);
      if !allowed {
        return PermissionDenied;
      }
      var name := segment;
      if '-' in name {
        name := ReplaceHyphens(name);
      }
      name := Capitalize(name);
      if name !in groups {
        return GroupMissing;
      }
      if target !in users {
        return UserMissing;
      }
      if target !in groups[name] {
        return NotInGroup;
      }
      if target == who.pk {
        return SelfRemoval;
      }
      groups := groups[name := groups[name] - {target}];
      return Removed;
    }
  }
}
