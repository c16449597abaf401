/** The request handlers of the application over an in-memory store that
    stands for the database: the users table, the messages table, the follows
    table and the likes table. Each handler receives the session's user id
    (`session`) where the application reads `g.user`, and the outcome of form
    and anti-forgery-token validation as booleans. */
module Warbler {
  import opened Domain
  import opened Feed
  import opened Graph
  import opened Search

  /** `form.field.data or DEFAULT`: an empty URL falls back to the default. */
  function OrDefault(url: string, default: string): (r: string)
    ensures url == "" ==> r == default
    ensures url != "" ==> r == url
  {
    if url == "" then default else url
  }

  /** The edit form is filled from the stored user, so a URL stored through
      `OrDefault` comes back unchanged when the form is submitted as it is,
      and a non-empty default is never stored as an empty URL. */
  lemma OrDefaultResubmitted(url: string, default: string)
    ensures OrDefault(OrDefault(url, default), default) == OrDefault(url, default)
    ensures default != "" ==> OrDefault(url, default) != ""
  {
  }

  class Store {
    /** The column defaults of the user images (set by the schema). */
    const defaultImageUrl: string
    const defaultHeaderImageUrl: string

    var users: map<UserId, User>
    /** The messages table in insertion order. */
    var messages: seq<Message>
    var follows: set<FollowEdge>
    var likes: set<LikeEdge>
    /** The next ids the database sequences will hand out. */
    var nextUserId: UserId
    var nextMessageId: MessageId

    /** Primary keys: every user is stored under its own id, below the next
        id the sequence will hand out. */
    ghost predicate UsersKeyed()
      reads this
    {
      forall id :: id in users ==> users[id].id == id && id < nextUserId
    }

    /** The unique constraints on username and email. */
    ghost predicate IdentitiesUnique()
      reads this
    {
      forall a, b :: a in users && b in users && a != b ==>
        users[a].username != users[b].username && users[a].email != users[b].email
    }

    /** Message ids are distinct and issued, and every author exists. */
    ghost predicate MessagesOwned()
      reads this
    {
      DistinctIds(messages)
      && forall m :: m in messages ==> m.id < nextMessageId && m.authorId in users
    }

    /** The foreign keys of the follows and likes tables. */
    ghost predicate EdgesResolve()
      reads this
    {
      (forall e :: e in follows ==> e.0 in users && e.1 in users)
      && (forall l :: l in likes ==> l.0 in users && l.1 in MessageIds())
    }

    /** The database constraints. */
    ghost predicate Valid()
      reads this
    {
      UsersKeyed() && IdentitiesUnique() && MessagesOwned() && EdgesResolve()
    }

    function MessageIds(): set<MessageId>
      reads this
    {
      set m | m in messages :: m.id
    }

    /** `g.user` is set: the session holds the id of a user that exists. */
    predicate LoggedIn(session: Option<UserId>)
      reads this
    {
      session.Some? && session.value in users
    }

    /** Some user other than `except` already has this username or email, so
        the commit would raise an integrity error. */
    predicate IdentityTaken(username: string, email: string, except: Option<UserId>)
      reads this
    {
      exists id :: id in users && Some(id) != except &&
        (users[id].username == username || users[id].email == email)
    }

    /** `User.authenticate(username, password)` succeeds: a user with that
        username exists and the credential library's `check` accepts the
        password against the stored hash. */
    predicate Authenticates(username: string, password: string, check: (string, string) -> bool)
      reads this
    {
      exists id :: id in users && users[id].username == username &&
        check(users[id].passwordHash, password)
    }

    /** Usernames are unique, so authenticating under a user's own username
        succeeds exactly when the password matches that user's own hash. */
    lemma AuthenticatesOwnName(me: UserId, password: string, check: (string, string) -> bool)
      requires Valid() && me in users
      ensures Authenticates(users[me].username, password, check)
          <==> check(users[me].passwordHash, password)
    {
      if Authenticates(users[me].username, password, check) {
        var id :| id in users && users[id].username == users[me].username
                  && check(users[id].passwordHash, password);
        assert id == me;
      }
    }

    /** A user's own username and email never clash with themselves: a profile
        form that keeps both passes the uniqueness constraint. */
    lemma OwnIdentityIsFree(me: UserId)
      requires Valid() && me in users
      ensures !IdentityTaken(users[me].username, users[me].email, Some(me))
    {
    }

    constructor (defaultImageUrl: string, defaultHeaderImageUrl: string)
      ensures Valid()
      ensures this.defaultImageUrl == defaultImageUrl
      ensures this.defaultHeaderImageUrl == defaultHeaderImageUrl
      ensures users == map[] && messages == [] && follows == {} && likes == {}
    {
      this.defaultImageUrl := defaultImageUrl;
      this.defaultHeaderImageUrl := defaultHeaderImageUrl;
      users := map[];
      messages := [];
      follows := {};
      likes := {};
      nextUserId := 0;
      nextMessageId := 0;
    }

    /** POST /signup. The session is always cleared first; on success the new
        user is logged in. */
    method Signup(formValid: bool, username: string, email: string, passwordHash: string, imageUrl: string)
      returns (outcome: Outcome, session: Option<UserId>)
      requires Valid()
      modifies this
      ensures Valid()
      ensures outcome ==
        if !formValid then FormShown
        else if old(IdentityTaken(username, email, None)) then DuplicateIdentity
        else Done
      ensures outcome != Done ==> session == None && unchanged(this)
      ensures outcome == Done ==>
        var id := old(nextUserId);
        id !in old(users) && session == Some(id) && LoggedIn(session)
        && users == old(users)[id := User(id, username, email, passwordHash,
                                          OrDefault(imageUrl, defaultImageUrl),
                                          defaultHeaderImageUrl, "", "")]
        && messages == old(messages) && follows == old(follows) && likes == old(likes)
        && nextUserId == id + 1 && nextMessageId == old(nextMessageId)
    {
      session := None;
      if !formValid {
        return FormShown, None;
      }
      if IdentityTaken(username, email, None) {
        return DuplicateIdentity, None;
      }
      var id := nextUserId;
      users := users[id := User(id, username, email, passwordHash,
                                OrDefault(imageUrl, defaultImageUrl), defaultHeaderImageUrl, "", "")];
      nextUserId := nextUserId + 1;
      outcome, session := Done, Some(id);
    }

    /** POST /users/profile. The current password confirms the edit; it is
        not changed, and neither is the location. */
    method EditProfile(session: Option<UserId>, formValid: bool, password: string,
                       check: (string, string) -> bool, username: string, email: string,
                       imageUrl: string, headerImageUrl: string, bio: string)
      returns (outcome: Outcome)
      requires Valid()
      modifies this
      ensures Valid()
      ensures outcome ==
        if !old(LoggedIn(session)) then AccessDenied
        else if !formValid then FormShown
        else if !old(Authenticates(users[session.value].username, password, check)) then InvalidPassword
        else if old(IdentityTaken(username, email, session)) then DuplicateIdentity
        else Done
      ensures outcome != Done ==> unchanged(this)
      ensures outcome == Done ==>
        var me := session.value;
        users == old(users)[me := old(users)[me].(email := email, username := username,
                                               imageUrl := OrDefault(imageUrl, defaultImageUrl),
                                               headerImageUrl := OrDefault(headerImageUrl, defaultHeaderImageUrl),
                                               bio := bio)]
        && messages == old(messages) && follows == old(follows) && likes == old(likes)
        && nextUserId == old(nextUserId) && nextMessageId == old(nextMessageId)
    {
      if !LoggedIn(session) {
        return AccessDenied;
      }
      if !formValid {
        return FormShown;
      }
      var me := session.value;
      if !Authenticates(users[me].username, password, check) {
        return InvalidPassword;
      }
      if IdentityTaken(username, email, session) {
        return DuplicateIdentity;
      }
      var updated := users[me].(email := email, username := username,
                                imageUrl := OrDefault(imageUrl, defaultImageUrl),
                                headerImageUrl := OrDefault(headerImageUrl, defaultHeaderImageUrl),
                                bio := bio);
      users := users[me := updated];
      outcome := Done;
    }

    /** POST /users/follow/<id>. The anti-forgery check of this route is never
        invoked, so no token is consulted. */
    method StartFollowing(session: Option<UserId>, followId: UserId) returns (outcome: Outcome)
      requires Valid()
      modifies this
      ensures Valid()
      ensures outcome ==
        if !old(LoggedIn(session)) then AccessDenied
        else if followId !in old(users) then NotFound
        else Done
      ensures outcome != Done ==> unchanged(this)
      ensures outcome == Done ==>
        follows == old(follows) + {(session.value, followId)}
        && users == old(users) && messages == old(messages) && likes == old(likes)
        && nextUserId == old(nextUserId) && nextMessageId == old(nextMessageId)
    {
      if !LoggedIn(session) {
        return AccessDenied;
      }
      if followId !in users {
        return NotFound;
      }
      follows := follows + {(session.value, followId)};
      outcome := Done;
    }

    /** POST /users/stop-following/<id>. Removing an edge that is not there
        makes `list.remove` raise, which ends the request with an error. */
    method StopFollowing(session: Option<UserId>, followId: UserId) returns (outcome: Outcome)
      requires Valid()
      modifies this
      ensures Valid()
      ensures outcome ==
        if !old(LoggedIn(session)) then AccessDenied
        else if followId !in old(users) then NotFound
        else if (session.value, followId) !in old(follows) then ServerError
        else Done
      ensures outcome != Done ==> unchanged(this)
      ensures outcome == Done ==>
        follows == old(follows) - {(session.value, followId)}
        && users == old(users) && messages == old(messages) && likes == old(likes)
        && nextUserId == old(nextUserId) && nextMessageId == old(nextMessageId)
    {
      if !LoggedIn(session) {
        return AccessDenied;
      }
      if followId !in users {
        return NotFound;
      }
      if (session.value, followId) !in follows {
        return ServerError;
      }
      follows := follows - {(session.value, followId)};
      outcome := Done;
    }

    /** POST /messages/<id>/liked. The handler reads the user's likes before
        its login check, so an anonymous request fails with an error. */
    method ToggleLike(session: Option<UserId>, csrfValid: bool, messageId: MessageId)
      returns (outcome: Outcome)
      requires Valid()
      modifies this
      ensures Valid()
      ensures outcome ==
        if !old(LoggedIn(session)) then ServerError
        else if !csrfValid then Unauthorized
        else if messageId !in old(MessageIds()) then NotFound
        else Done
      ensures outcome != Done ==> unchanged(this)
      ensures outcome == Done ==>
        likes == Toggled(old(likes), (session.value, messageId))
        && users == old(users) && messages == old(messages) && follows == old(follows)
        && nextUserId == old(nextUserId) && nextMessageId == old(nextMessageId)
    {
      if !LoggedIn(session) {
        return ServerError;
      }
      if !csrfValid {
        return Unauthorized;
      }
      if messageId !in MessageIds() {
        return NotFound;
      }
      var edge := (session.value, messageId);
      if edge in likes {
        likes := likes - {edge};
      } else {
        likes := likes + {edge};
      }
      outcome := Done;
    }

    /** POST /messages/new. The timestamp is the clock reading `now`. */
    method AddMessage(session: Option<UserId>, formValid: bool, text: string, now: nat)
      returns (outcome: Outcome)
      requires Valid()
      modifies this
      ensures Valid()
      ensures outcome ==
        if !old(LoggedIn(session)) then AccessDenied
        else if !formValid then FormShown
        else Done
      ensures outcome != Done ==> unchanged(this)
      ensures outcome == Done ==>
        var id := old(nextMessageId);
        id !in old(MessageIds())
        && messages == old(messages) + [Message(id, text, now, session.value)]
        && users == old(users) && follows == old(follows) && likes == old(likes)
        && nextUserId == old(nextUserId) && nextMessageId == id + 1
    {
      if !LoggedIn(session) {
        return AccessDenied;
      }
      if !formValid {
        return FormShown;
      }
      var m := Message(nextMessageId, text, now, session.value);
      messages := messages + [m];
      nextMessageId := nextMessageId + 1;
      outcome := Done;
    }

    /** POST /messages/<id>/delete. Any logged-in user may delete any message:
        the handler does not compare the author with the current user. When
        the token check fails the handler returns nothing, which is an error.
        Likes of the message go with it. */
    method DeleteMessage(session: Option<UserId>, csrfValid: bool, messageId: MessageId)
      returns (outcome: Outcome)
      requires Valid()
      modifies this
      ensures Valid()
      ensures outcome ==
        if !old(LoggedIn(session)) then AccessDenied
        else if !csrfValid then ServerError
        else if messageId !in old(MessageIds()) then NotFound
        else Done
      ensures outcome != Done ==> unchanged(this)
      ensures outcome == Done ==>
        messages == WithoutId(old(messages), messageId)
        && messageId !in MessageIds()
        && likes == LikesNotOn(old(likes), messageId)
        && users == old(users) && follows == old(follows)
        && nextUserId == old(nextUserId) && nextMessageId == old(nextMessageId)
    {
      if !LoggedIn(session) {
        return AccessDenied;
      }
      if !csrfValid {
        return ServerError;
      }
      if messageId !in MessageIds() {
        return NotFound;
      }
      ghost var before := messages;
      messages := WithoutId(messages, messageId);
      likes := LikesNotOn(likes, messageId);
      forall l | l in likes ensures l.1 in MessageIds() {
        var m :| m in before && m.id == l.1;
        assert m in messages;
      }
      outcome := Done;
    }

    /** POST /users/delete. Logs out, then deletes the user together with the
        rows that refer to it: its messages, every follow edge it is on, its
        likes, and the likes of its messages. */
    method DeleteUser(session: Option<UserId>, csrfValid: bool)
      returns (outcome: Outcome, newSession: Option<UserId>)
      requires Valid()
      modifies this
      ensures Valid()
      ensures outcome ==
        if !old(LoggedIn(session)) then AccessDenied
        else if !csrfValid then Unauthorized
        else Done
      ensures outcome != Done ==> newSession == session && unchanged(this)
      ensures outcome == Done ==>
        var me := session.value;
        newSession == None
        && users == old(users) - {me}
        && messages == WithoutAuthor(old(messages), me)
        && follows == FollowsWithout(old(follows), me)
        && likes == LikesWithout(old(likes), me, MessageIds())
        && nextUserId == old(nextUserId) && nextMessageId == old(nextMessageId)
    {
      if !LoggedIn(session) {
        return AccessDenied, session;
      }
      if !csrfValid {
        return Unauthorized, session;
      }
      var me := session.value;
      newSession := None;
      ghost var oldUsers, oldFollows, oldLikes := users, follows, likes;
      users := users - {me};
      messages := WithoutAuthor(messages, me);
      follows := FollowsWithout(follows, me);
      likes := LikesWithout(likes, me, MessageIds());
      forall e | e in follows ensures e.0 in users && e.1 in users {
        assert e in oldFollows;
      }
      forall l | l in likes ensures l.0 in users && l.1 in MessageIds() {
        assert l in oldLikes;
      }
      outcome := Done;
    }
    /** `author` is the viewer or someone the viewer follows. */
    predicate FeedAuthor(viewer: UserId, author: UserId)
      reads this
    {
      author == viewer || (viewer, author) in follows
    }

    /** Every row whose author is the viewer or followed by the viewer. */
    function FeedCandidates(viewer: UserId): seq<Message>
      reads this
    {
      ByAuthors(messages, Following(follows, viewer) + {viewer})
    }

    /** GET /: nothing for an anonymous visitor; otherwise the 100 newest
        messages of the viewer and of the users the viewer follows. */
    function HomeFeed(session: Option<UserId>): (feed: seq<Message>)
      reads this
      ensures !LoggedIn(session) ==> feed == []
      ensures LoggedIn(session) ==>
        var viewer := session.value;
        (forall m :: m in feed ==> m in messages && FeedAuthor(viewer, m.authorId))
        && NewestFirst(feed)
        && multiset(feed) <= multiset(FeedCandidates(viewer))
        && |feed| == (if |FeedCandidates(viewer)| <= FeedLimit then |FeedCandidates(viewer)| else FeedLimit)
        && (forall m :: m in messages && FeedAuthor(viewer, m.authorId) && m !in feed ==>
              |FeedCandidates(viewer)| > FeedLimit
              && forall k :: 0 <= k < |feed| ==> m.timestamp <= feed[k].timestamp)
    {
      if !LoggedIn(session) then []
      else
        FollowingIsOutDegree(follows, session.value);
        Window(FeedCandidates(session.value))
    }

    /** Every row whose id `u` has liked. */
    function LikedCandidates(u: UserId): seq<Message>
      reads this
    {
      WithIds(messages, LikedBy(likes, u))
    }

    /** GET /users/<id>/liked: the 100 newest messages that user `userId`
        has liked. */
    function LikedView(session: Option<UserId>, userId: UserId): (page: View<seq<Message>>)
      reads this
      ensures !LoggedIn(session) ==> page == Refused(AccessDenied)
      ensures LoggedIn(session) && userId !in users ==> page == Refused(NotFound)
      ensures LoggedIn(session) && userId in users ==>
        page.Shown?
        && (forall m :: m in page.value ==> m in messages && (userId, m.id) in likes)
        && NewestFirst(page.value)
        && multiset(page.value) <= multiset(LikedCandidates(userId))
        && |page.value| == (if |LikedCandidates(userId)| <= FeedLimit then |LikedCandidates(userId)| else FeedLimit)
        && (forall m :: m in messages && (userId, m.id) in likes && m !in page.value ==>
              |LikedCandidates(userId)| > FeedLimit
              && forall k :: 0 <= k < |page.value| ==> m.timestamp <= page.value[k].timestamp)
    {
      if !LoggedIn(session) then Refused(AccessDenied)
      else if userId !in users then Refused(NotFound)
      else Shown(Window(LikedCandidates(userId)))
    }

    /** Listing every user when the term is absent is the same as filtering
        by the empty term, which every username contains. */
    lemma UnfilteredIsEmptyTerm(session: Option<UserId>)
      requires LoggedIn(session)
      ensures ListUsers(session, None) == Shown(UsersMatching(""))
      ensures ListUsers(session, Some("")) == ListUsers(session, None)
    {
      forall u | u in users.Values ensures u in UsersMatching("") {
        assert StartsWith(u.username, "");
      }
      assert users.Values == UsersMatching("");
    }

    /** The users whose username contains `q`. */
    function UsersMatching(q: string): (r: set<User>)
      reads this
      ensures forall u :: u in r <==> u in users.Values && ContainsText(u.username, q)
    {
      set id | id in users && ContainsText(users[id].username, q) :: users[id]
    }

    /** GET /users?q=...: every user when the term is absent or empty,
        otherwise the users whose username contains the term. */
    function ListUsers(session: Option<UserId>, q: Option<string>): (page: View<set<User>>)
      reads this
      ensures !LoggedIn(session) ==> page == Refused(AccessDenied)
      ensures LoggedIn(session) ==>
        page.Shown?
        && forall u :: u in page.value <==>
             u in users.Values && (q.None? || q.value == "" || ContainsText(u.username, q.value))
    {
      if !LoggedIn(session) then Refused(AccessDenied)
      else if q.None? || q.value == "" then Shown(users.Values)
      else Shown(UsersMatching(q.value))
    }
  }
}
