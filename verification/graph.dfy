/** The two edge relations of the application: "follows" between users and
    "likes" from users to messages, with the projections the pages count. */
module Graph {
  import opened Domain

  /** A follow edge (follower, followed). */
  type FollowEdge = (UserId, UserId)

  /** A like edge (user, message). */
  type LikeEdge = (UserId, MessageId)

  /** `user.following`: the users that `u` follows. */
  function Following(follows: set<FollowEdge>, u: UserId): (r: set<UserId>)
    ensures forall v :: v in r <==> (u, v) in follows
  {
    set e | e in follows && e.0 == u :: e.1
  }

  /** `user.followers`: the users that follow `u`. */
  function Followers(follows: set<FollowEdge>, u: UserId): (r: set<UserId>)
    ensures forall v :: v in r <==> (v, u) in follows
  {
    set e | e in follows && e.1 == u :: e.0
  }

  /** The edges that leave `u`. */
  function OutEdges(follows: set<FollowEdge>, u: UserId): set<FollowEdge>
  {
    set e | e in follows && e.0 == u
  }

  /** The edges that enter `u`. */
  function InEdges(follows: set<FollowEdge>, u: UserId): set<FollowEdge>
  {
    set e | e in follows && e.1 == u
  }

  /** `user.liked`, as message ids. */
  function LikedBy(likes: set<LikeEdge>, u: UserId): (r: set<MessageId>)
    ensures forall mid :: mid in r <==> (u, mid) in likes
  {
    set l | l in likes && l.0 == u :: l.1
  }

  /** The follow edges that do not touch `u`. */
  function FollowsWithout(follows: set<FollowEdge>, u: UserId): (r: set<FollowEdge>)
    ensures forall e :: e in r <==> e in follows && e.0 != u && e.1 != u
  {
    set e | e in follows && e.0 != u && e.1 != u
  }

  /** The like edges of users other than `u` on the messages in `kept`. */
  function LikesWithout(likes: set<LikeEdge>, u: UserId, kept: set<MessageId>): (r: set<LikeEdge>)
    ensures forall l :: l in r <==> l in likes && l.0 != u && l.1 in kept
  {
    set l | l in likes && l.0 != u && l.1 in kept
  }

  /** The like edges on messages other than `mid`. */
  function LikesNotOn(likes: set<LikeEdge>, mid: MessageId): (r: set<LikeEdge>)
    ensures forall l :: l in r <==> l in likes && l.1 != mid
  {
    set l | l in likes && l.1 != mid
  }

  /** After a user is deleted, every other user's following and follower lists
      lose exactly that user, and the deleted user's own lists are empty. */
  lemma FollowListsWithout(follows: set<FollowEdge>, u: UserId)
    ensures forall v :: v != u ==>
      Following(FollowsWithout(follows, u), v) == Following(follows, v) - {u}
    ensures forall v :: v != u ==>
      Followers(FollowsWithout(follows, u), v) == Followers(follows, v) - {u}
    ensures Following(FollowsWithout(follows, u), u) == {}
    ensures Followers(FollowsWithout(follows, u), u) == {}
  {
  }

  /** After a user is deleted, that user likes nothing, and every other user
      likes exactly the messages it liked before that remain. */
  lemma LikedByWithout(likes: set<LikeEdge>, u: UserId, kept: set<MessageId>)
    ensures LikedBy(LikesWithout(likes, u, kept), u) == {}
    ensures forall v :: v != u ==>
      LikedBy(LikesWithout(likes, u, kept), v) == LikedBy(likes, v) * kept
  {
  }

  /** After a message is deleted, every user's liked list loses exactly that
      message. */
  lemma LikedByNotOn(likes: set<LikeEdge>, mid: MessageId)
    ensures forall v :: LikedBy(LikesNotOn(likes, mid), v) == LikedBy(likes, v) - {mid}
  {
  }

  /** A like toggle: `x` leaves the set if it was there and joins it otherwise. */
  function Toggled<T>(s: set<T>, x: T): (r: set<T>)
    ensures x in r <==> x !in s
    ensures r - {x} == s - {x}
  {
    if x in s then s - {x} else s + {x}
  }

  lemma ToggleTwiceRestores<T>(s: set<T>, x: T)
    ensures Toggled(Toggled(s, x), x) == s
  {
  }

  lemma {:induction false} SecondsOfOneSource(edges: set<FollowEdge>, u: UserId)
    requires forall e :: e in edges ==> e.0 == u
    ensures |set e | e in edges :: e.1| == |edges|
    decreases |edges|
  {
    if edges != {} {
      var e :| e in edges;
      var rest := edges - {e};
      SecondsOfOneSource(rest, u);
      assert (set x | x in edges :: x.1) == (set x | x in rest :: x.1) + {e.1};
      assert e.1 !in (set x | x in rest :: x.1);
    }
  }

  lemma {:induction false} FirstsOfOneTarget(edges: set<FollowEdge>, u: UserId)
    requires forall e :: e in edges ==> e.1 == u
    ensures |set e | e in edges :: e.0| == |edges|
    decreases |edges|
  {
    if edges != {} {
      var e :| e in edges;
      var rest := edges - {e};
      FirstsOfOneTarget(rest, u);
      assert (set x | x in edges :: x.0) == (set x | x in rest :: x.0) + {e.0};
      assert e.0 !in (set x | x in rest :: x.0);
    }
  }

  /** The following count of `u` is its out-degree in the follow relation. */
  lemma FollowingIsOutDegree(follows: set<FollowEdge>, u: UserId)
    ensures |Following(follows, u)| == |OutEdges(follows, u)|
  {
    SecondsOfOneSource(OutEdges(follows, u), u);
    assert Following(follows, u) == set e | e in OutEdges(follows, u) :: e.1;
  }

  /** The follower count of `u` is its in-degree in the same relation. */
  lemma FollowersIsInDegree(follows: set<FollowEdge>, u: UserId)
    ensures |Followers(follows, u)| == |InEdges(follows, u)|
  {
    FirstsOfOneTarget(InEdges(follows, u), u);
    assert Followers(follows, u) == set e | e in InEdges(follows, u) :: e.0;
  }

  /** A new edge (a, b) raises a's following count and b's follower count by
      one each and changes no other user's lists. */
  lemma FollowAddsOneEachSide(follows: set<FollowEdge>, a: UserId, b: UserId)
    requires (a, b) !in follows
    ensures |Following(follows + {(a, b)}, a)| == |Following(follows, a)| + 1
    ensures |Followers(follows + {(a, b)}, b)| == |Followers(follows, b)| + 1
    ensures forall u :: u != a ==> Following(follows + {(a, b)}, u) == Following(follows, u)
    ensures forall u :: u != b ==> Followers(follows + {(a, b)}, u) == Followers(follows, u)
  {
    var after := follows + {(a, b)};
    assert Following(after, a) == Following(follows, a) + {b};
    assert Followers(after, b) == Followers(follows, b) + {a};
  }

  /** Removing an existing edge (a, b) lowers both counts by one each and
      changes no other user's lists. */
  lemma UnfollowRemovesOneEachSide(follows: set<FollowEdge>, a: UserId, b: UserId)
    requires (a, b) in follows
    ensures |Following(follows - {(a, b)}, a)| == |Following(follows, a)| - 1
    ensures |Followers(follows - {(a, b)}, b)| == |Followers(follows, b)| - 1
    ensures forall u :: u != a ==> Following(follows - {(a, b)}, u) == Following(follows, u)
    ensures forall u :: u != b ==> Followers(follows - {(a, b)}, u) == Followers(follows, u)
  {
    var before := follows - {(a, b)};
    FollowAddsOneEachSide(before, a, b);
    assert before + {(a, b)} == follows;
  }
}
