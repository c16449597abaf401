/** Sequences of requests against the store, and what their contracts imply
    when they are run one after another. */
module Scenarios {
  import opened Domain
  import opened Graph
  import opened Warbler

  /** Following a user and then unfollowing them restores the follow edges. */
  method FollowThenUnfollow(s: Store, session: Option<UserId>, target: UserId)
    returns (first: Outcome, second: Outcome)
    requires s.Valid() && s.LoggedIn(session) && target in s.users
    requires (session.value, target) !in s.follows
    modifies s
    ensures s.Valid()
    ensures first == Done && second == Done
    ensures s.follows == old(s.follows)
    ensures s.users == old(s.users) && s.messages == old(s.messages) && s.likes == old(s.likes)
  {
    first := s.StartFollowing(session, target);
    second := s.StopFollowing(session, target);
  }

  /** Toggling the like of one message twice restores every like edge. */
  method LikeTwice(s: Store, session: Option<UserId>, messageId: MessageId)
    returns (first: Outcome, second: Outcome)
    requires s.Valid() && s.LoggedIn(session) && messageId in s.MessageIds()
    modifies s
    ensures s.Valid()
    ensures first == Done && second == Done
    ensures s.likes == old(s.likes)
    ensures s.users == old(s.users) && s.messages == old(s.messages) && s.follows == old(s.follows)
  {
    first := s.ToggleLike(session, true, messageId);
    ToggleTwiceRestores(old(s.likes), (session.value, messageId));
    second := s.ToggleLike(session, true, messageId);
  }

  /** A second signup with a taken username, or with a taken email, is
      refused with the uniqueness error and logs nobody in. */
  method DuplicateSignups() returns (first: Outcome, sameName: Outcome, sameEmail: Outcome,
                                     session: Option<UserId>)
    ensures first == Done
    ensures sameName == DuplicateIdentity && sameEmail == DuplicateIdentity
    ensures session == None
  {
    var s := new Store("/default.png", "/header.png");
    first, session := s.Signup(true, "u1", "u1@email.com", "hash", "");
    sameName, session := s.Signup(true, "u1", "u3@email.com", "hash", "");
    sameEmail, session := s.Signup(true, "u4", "u1@email.com", "hash", "");
  }

  /** A fresh store after the signups of u1, u2 and u3. */
  method ThreeUsers() returns (s: Store, u1: UserId, u2: UserId, u3: UserId)
    ensures fresh(s) && s.Valid()
    ensures u1 in s.users && u2 in s.users && u3 in s.users
    ensures u1 != u2 && u2 != u3 && u1 != u3
    ensures s.follows == {} && s.likes == {} && s.messages == []
  {
    s := new Store("/default.png", "/header.png");
    var outcome, session := s.Signup(true, "u1", "u1@email.com", "hash", "");
    u1 := session.value;
    outcome, session := s.Signup(true, "u2", "u2@email.com", "hash", "");
    u2 := session.value;
    outcome, session := s.Signup(true, "u3", "u3@email.com", "hash", "");
    u3 := session.value;
  }

  /** The follow requests of the follow-count test, run on a fresh store. */
  method FollowTestGraph() returns (u1: UserId, u2: UserId, u3: UserId,
                                    follows: set<FollowEdge>)
    ensures u1 != u2 && u2 != u3 && u1 != u3
    ensures follows == {(u2, u1), (u3, u1), (u1, u2)}
  {
    var s;
    s, u1, u2, u3 := ThreeUsers();
    var outcome := s.StartFollowing(Some(u2), u1);
    outcome := s.StartFollowing(Some(u3), u1);
    outcome := s.StartFollowing(Some(u1), u2);
    follows := s.follows;
  }

  /** u2 and u3 follow u1, and u1 follows u2: u1 follows exactly u2 and is
      followed by exactly u2 and u3, so its counts are 1 and 2. */
  method FollowCounts() returns (u1: UserId, u2: UserId, u3: UserId,
                                 following: set<UserId>, followers: set<UserId>)
    ensures u1 != u2 && u2 != u3 && u1 != u3
    ensures following == {u2} && followers == {u2, u3}
    ensures |following| == 1 && |followers| == 2
  {
    var follows;
    u1, u2, u3, follows := FollowTestGraph();
    following := Following(follows, u1);
    followers := Followers(follows, u1);
    FollowingIsOutDegree(follows, u1);
    FollowersIsInDegree(follows, u1);
    forall v ensures v in following <==> v == u2 {
      assert v in following <==> (u1, v) in follows;
    }
    forall v ensures v in followers <==> v == u2 || v == u3 {
      assert v in followers <==> (v, u1) in follows;
    }
  }

  /** u2 posts a message and u1 likes it (the like the test inserts directly);
      u1 then toggles the like off, and u1's liked page is empty. */
  method LikeUnlike() returns (liked: View<seq<Message>>)
    ensures liked == Shown([])
  {
    var s := new Store("/default.png", "/header.png");
    var outcome, session := s.Signup(true, "u1", "u1@email.com", "hash", "");
    var u1 := session.value;
    outcome, session := s.Signup(true, "u2", "u2@email.com", "hash", "");
    var u2 := session.value;
    outcome := s.AddMessage(Some(u2), true, "text", 1);
    var m := s.messages[0];
    assert m.id in s.MessageIds();
    outcome := s.ToggleLike(Some(u1), true, m.id);
    outcome := s.ToggleLike(Some(u1), true, m.id);
    assert s.likes == {};
    liked := s.LikedView(Some(u1), u1);
  }

  /** A user may delete a message written by someone else: the delete
      handler never compares the author with the current user. */
  method ForeignDelete() returns (outcome: Outcome, remaining: seq<Message>)
    ensures outcome == Done && remaining == []
  {
    var s := new Store("/default.png", "/header.png");
    var o, session := s.Signup(true, "u1", "u1@email.com", "hash", "");
    var u1 := session.value;
    o, session := s.Signup(true, "u2", "u2@email.com", "hash", "");
    var u2 := session.value;
    o := s.AddMessage(Some(u1), true, "Test", 1);
    var m := s.messages[0];
    assert m.id in s.MessageIds() && m.authorId == u1 != u2;
    outcome := s.DeleteMessage(Some(u2), true, m.id);
    remaining := s.messages;
  }

  /** A profile edit with the wrong password is refused and changes nothing. */
  method WrongPasswordEdit() returns (outcome: Outcome, unchangedUsers: bool)
    ensures outcome == InvalidPassword && unchangedUsers
  {
    var s := new Store("/default.png", "/header.png");
    var o, session := s.Signup(true, "u1", "u1@email.com", "password", "");
    var before := s.users;
    // The credential check stands in for bcrypt: here a hash matches only itself.
    var check := (hash: string, password: string) => hash == password;
    outcome := s.EditProfile(session, true, "wrongpassword", check,
                             "test", "test@test.com", "", "", "");
    unchangedUsers := s.users == before;
  }
}
