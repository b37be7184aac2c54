/** The request and response shapes shared by the views: who is calling, and
    what comes back (a status code and a JSON body reduced to its meaning). */
module Http {

  /** Primary key of a row of the user table. */
  type UserId = int

  /** `request.user`: either Django's anonymous user or a stored user. */
  datatype Requester = Anonymous | User(pk: UserId)

  const HTTP_200_OK: nat := 200
  const HTTP_400_BAD_REQUEST: nat := 400
  const HTTP_403_FORBIDDEN: nat := 403
  const HTTP_404_NOT_FOUND: nat := 404

  /** The body of a response: `{'error': ...}`, `{'message': ...}`, the
      serialised member list of a group (by user id), or the framework's own
      permission-denied answer. */
  datatype Body =
    | Error(error: string)
    | Message(message: string)
    | Users(ids: set<UserId>)
    | NotPermitted

  datatype Response = Response(status: nat, body: Body)

  /** What the framework answers when a permission class refuses the request. */
  const PermissionDenied := Response(HTTP_403_FORBIDDEN, NotPermitted)
}
