/** The records of the micro-blogging application: users, messages, and the
    outcomes a request handler can end with. */
module Domain {

  type UserId = nat
  type MessageId = nat

  datatype Option<+T> = None | Some(value: T)

  /** A row of the users table. The password is kept only as the salted hash
      that the credential library produced; the model never looks inside it. */
  datatype User = User(
    id: UserId,
    username: string,
    email: string,
    passwordHash: string,
    imageUrl: string,
    headerImageUrl: string,
    bio: string,
    location: string)

  /** A row of the messages table: its author is fixed at creation. */
  datatype Message = Message(id: MessageId, text: string, timestamp: nat, authorId: UserId)

  /** How a request handler ends. */
  datatype Outcome =
    | Done               // the change was committed, or the page was rendered
    | AccessDenied       // "Access unauthorized." is flashed and the client is sent to "/"
    | Unauthorized       // the handler raises HTTP 401
    | NotFound           // a `get_or_404` lookup aborts with HTTP 404
    | FormShown          // the form did not validate and is shown again
    | InvalidPassword    // the password gate of the profile edit refused
    | DuplicateIdentity  // the commit hit the username or email uniqueness constraint
    | ServerError        // an exception escaped the handler (HTTP 500); nothing was committed

  /** What a read-only page shows, or why it was refused. */
  datatype View<+T> = Shown(value: T) | Refused(reason: Outcome)
}
