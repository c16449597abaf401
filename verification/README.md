# Warbler social graph and feeds, modelled in Dafny

Warbler is a small micro-blogging web application. Users sign up, post short
messages, follow other users and like messages. This project models its
social-graph and feed rules, as the Flask request handlers in `app.py`
implement them. The model works over an in-memory store that stands for the
database. The store holds four tables:

- users: id, username, email, password hash, image URL, header image URL, bio, location;
- messages: id, text, timestamp, author id, kept in insertion order;
- follow edges: a set of (follower, followed) pairs;
- like edges: a set of (user, message id) pairs.

Modules:

- `Domain` (domain.dfy): the records, and the outcomes a handler can end with.
  An outcome is a commit, a flashed redirect to `/`, HTTP 401, HTTP 404, a
  re-shown form, the invalid-password and duplicate-identity refusals, or an
  unhandled exception.
- `Feed` (feed.dfy): the filter, newest-first order and 100-row limit shared
  by the home feed and the liked-messages page. The order is a stable insertion
  sort. `Window` carries the properties: sorted, capped, complete under the
  cap, and any row it leaves out is no newer than the rows it shows.
- `Graph` (graph.dfy): the follow and like relations. Following and follower
  counts are proved to be the out-degree and in-degree of the one edge set. A
  follow or unfollow moves both counts by one and leaves every other user's
  lists alone. A like toggle applied twice restores the edge set.
- `Search` (search.dfy): the username search as substring containment. It is
  proved equal to "some position starts a copy of the term". The empty term
  therefore matches every username, as the unfiltered listing does.
- `Warbler` (store.dfy): the class `Store`. Its `Valid()` holds the database
  constraints: keys, unique usernames and emails, and foreign keys. It has one
  method per state-changing handler and one function per query.
- `Scenarios` (scenarios.dfy): handler sequences composed through their
  contracts. They cover follow then unfollow, liking twice, duplicate signups,
  follow counts, like then unlike, deleting another user's message, and a
  profile edit with a wrong password.

Each handler takes the id stored in the session (`session`). It counts as
logged in (`g.user`) only when that id names an existing user. Results of
form validation and anti-forgery-token validation are boolean inputs.
`User.authenticate` is a lookup by username plus a credential check, and
that check is a parameter `check(hash, password)`. The clock reading is a
parameter `now`. Ids come from two counters that stand for the database
sequences.

## Model

| member | source | states |
|---|---|---|
| `Feed.Window` | app.py:437-442 | the result is newest-first; its length is the number of eligible rows capped at 100; it holds only eligible rows; every eligible row appears when at most 100 are eligible; a row left out means more than 100 were eligible and it is no newer than any row shown |
| `Feed.SortNewestFirst` | app.py:440 | the timestamp order (a stable insertion sort, newest first) returns as many rows as it is given; its order and its rows are stated by `Feed.SortOrders` and `Feed.SortPermutes` |
| `Feed.SortPermutes` | app.py:440 | ordering by timestamp returns exactly the filtered rows (same multiset) |
| `Feed.SortOrders` | app.py:440 | ordering by timestamp yields a non-increasing sequence of timestamps |
| `Feed.WindowDropsOnlyOlder` | app.py:440-441 | cutting a newest-first sequence to its first n rows drops only rows no newer than every kept row |
| `Feed.ByAuthors` | app.py:439 | a row is kept exactly when it is in the table and its author id is in the given id list |
| `Feed.WithIds` | app.py:219 | a row is kept exactly when it is in the table and its id is in the given id list |
| `Feed.WithoutId` | app.py:415-416 | deleting a message leaves exactly the other rows, and keeps ids distinct |
| `Feed.WithoutAuthor` | app.py:324 | deleting a user removes exactly that user's messages, and keeps ids distinct |
| `Graph.Following` | app.py:178-187 | `v` is in the users `u` follows exactly when the edge (u, v) exists |
| `Graph.Followers` | app.py:190-199 | `v` is among `u`'s followers exactly when the edge (v, u) exists |
| `Graph.FollowsWithout` | app.py:324 | a definition: the follow edges on which the deleted user is neither follower nor followed (its ensures only spells out the comprehension) |
| `Graph.LikesWithout` | app.py:324 | a definition: the like edges of other users on messages that remain (its ensures only spells out the comprehension) |
| `Graph.LikesNotOn` | app.py:416 | a definition: the like edges on messages other than the deleted one (its ensures only spells out the comprehension) |
| `Graph.FollowListsWithout` | app.py:324 | after a user is deleted, every other user's following and follower lists lose exactly that user, and the deleted user's own lists are empty |
| `Graph.LikedByWithout` | app.py:324 | after a user is deleted, that user likes nothing and every other user likes exactly its earlier likes on the messages that remain |
| `Graph.LikedByNotOn` | app.py:416 | after a message is deleted, every user's liked list loses exactly that message and nothing else |
| `Graph.LikedBy` | app.py:213 | a message id is in a user's liked list exactly when that (user, message) like edge exists |
| `Graph.Toggled` | app.py:389-392 | the toggled pair is present afterwards exactly when it was absent before; every other pair is untouched |
| `Graph.ToggleTwiceRestores` | app.py:389-392 | toggling the same pair twice restores the like set |
| `Graph.FollowingIsOutDegree` | test_user_views.py:340-345 | a user's following count is the number of edges leaving it, out of the one follow relation |
| `Graph.FollowersIsInDegree` | test_user_views.py:340-347 | a user's follower count is the number of edges entering it, in the same relation |
| `Graph.FollowAddsOneEachSide` | app.py:241-243 | a new edge (a, b) raises a's following count and b's follower count by one; no other user's lists change |
| `Graph.UnfollowRemovesOneEachSide` | app.py:262-265 | removing the edge (a, b) lowers both counts by one; no other user's lists change |
| `Search.ContainsText` | app.py:160 | the `%term%` filter on one username; a username that contains the term is at least as long as the term |
| `Search.ContainsTextIffOccurs` | app.py:160 | the username matches the term exactly when some position of the username starts a copy of the term |
| `Warbler.OrDefault` | app.py:290-292 | a definition: `form value or default` (its two ensures are the two branches) |
| `Warbler.OrDefaultResubmitted` | app.py:283-292 | the edit form is filled from the stored user, so submitting a stored URL unchanged stores it again, and a non-empty default never lets an empty URL be stored |
| `Warbler.Store.LoggedIn` | app.py:38-42 | `g.user` is set: the session holds an id and that id names an existing user (a definition, without a contract) |
| `Warbler.Store.IdentityTaken` | app.py:90-92 | the commit would raise the integrity error: some user other than the one being edited already has the username or the email (a definition, without a contract) |
| `Warbler.Store.Authenticates` | app.py:287 | `User.authenticate` succeeds: a user with that username exists and the credential check accepts the password against its hash (a definition, without a contract) |
| `Warbler.Store.AuthenticatesOwnName` | app.py:287 | since usernames are unique, authenticating under the current user's own username succeeds exactly when the password matches that user's own hash |
| `Warbler.Store.OwnIdentityIsFree` | app.py:301-303 | a profile edit that keeps the user's own username and email never meets the integrity error |
| `Warbler.Store.Signup` | app.py:76-96 | the session is always cleared; an invalid form changes nothing; a taken username or email gives the uniqueness error and changes nothing; otherwise exactly one user is added under a fresh id, with the default image for an empty URL, and that user is logged in; the constraints are kept |
| `Warbler.Store.EditProfile` | app.py:277-305 | refused without a logged-in user, with an invalid form, with a wrong password, or with a username or email held by another user, and then nothing changes; otherwise only the current user's email, username, bio and both image URLs change, with defaults for empty URLs; the location and password are untouched |
| `Warbler.Store.StartFollowing` | app.py:236-245 | without a logged-in user, or for a missing target, nothing changes; otherwise the edge (actor, target) is added and nothing else changes; no token is consulted |
| `Warbler.Store.StopFollowing` | app.py:257-267 | without a logged-in user, for a missing target, or when the edge is absent (the list removal raises), nothing changes; otherwise exactly the edge (actor, target) is removed |
| `Warbler.Store.ToggleLike` | app.py:377-396 | an anonymous request fails before the guard, and a bad token or a missing message is refused; in all these cases nothing changes; otherwise only the actor's like of that message is toggled |
| `Warbler.Store.AddMessage` | app.py:343-354 | without a logged-in user or with an invalid form nothing changes; otherwise one message by the actor, with a fresh id and the given timestamp, is appended |
| `Warbler.Store.DeleteMessage` | app.py:410-419 | without a logged-in user, with a bad token (the handler returns nothing) or for a missing message, nothing changes; otherwise that message and its likes are removed, whoever wrote it |
| `Warbler.Store.DeleteUser` | app.py:317-327 | without a logged-in user or with a bad token nothing changes; otherwise the session is cleared and the user is removed together with its messages, every follow edge it is on, its likes and the likes of its messages; the constraints are kept |
| `Warbler.Store.HomeFeed` | app.py:434-447 | anonymous visitors get no messages; otherwise every message shown is by the viewer or by someone the viewer follows; the feed is newest-first and capped at 100; each eligible message is shown at most once (the feed is a sub-multiset of the eligible rows); every eligible message is shown when there are at most 100, and one left out is no newer than any shown |
| `Warbler.Store.LikedView` | app.py:206-222 | refused without a logged-in user, and gives 404 for a missing user; otherwise it shows only messages the profiled user liked, newest-first, at most 100, each at most once (a sub-multiset of the liked rows), complete under the cap, and a left-out message is no newer than any shown |
| `Warbler.Store.ListUsers` | app.py:151-160 | refused without a logged-in user; with no term or an empty term every user is listed; otherwise exactly the users whose username contains the term |
| `Warbler.Store.UsersMatching` | app.py:160 | a user is listed exactly when it is in the table and its username contains the term |
| `Warbler.Store.UnfilteredIsEmptyTerm` | app.py:157-160 | the unfiltered list equals the list filtered by the empty term, which every username contains, and an empty term gives the unfiltered list |
| `Scenarios.FollowThenUnfollow` | app.py:241-265 | following a user not yet followed and then unfollowing them succeeds twice and restores the follow edges, with every other table unchanged |
| `Scenarios.LikeTwice` | test_message_model.py:107-132 | liking an existing message twice succeeds twice and restores the like edges, with every other table unchanged |
| `Scenarios.DuplicateSignups` | test_user_model.py:130-142 | after u1 signs up, a signup reusing its username, or its email, fails with the uniqueness error and logs nobody in |
| `Scenarios.FollowCounts` | test_user_views.py:303-347 | after u2 and u3 follow u1 and u1 follows u2, u1 follows exactly {u2} and is followed by exactly {u2, u3}, so its counts are 1 and 2 |
| `Scenarios.LikeUnlike` | test_user_views.py:251-300 | u2 writes a message that u1 likes; u1's next toggle removes the like and leaves u1's liked page empty |
| `Scenarios.ForeignDelete` | app.py:402-419 | a user deletes a message written by another user and the handler commits |
| `Scenarios.WrongPasswordEdit` | test_user_views.py:228-248 | a profile edit with a wrong password gives the invalid-password outcome and leaves the users table unchanged |

## Where the code and its documentation differ

The model follows the code in each of these cases.

- Message deletion: the docstring of `delete_message` (app.py:406) says the
  handler checks that the current user wrote the message. The body
  (app.py:414-417) has no such check. `Store.DeleteMessage` lets any logged-in
  user delete any message, and `Scenarios.ForeignDelete` shows one user
  deleting another user's message.
- Delete with a bad token: `delete_message` has no branch for a failed token
  check, so the view returns nothing and the request fails (`ServerError`).
- Follow and unfollow tokens: these routes test the bound method
  `validate_on_submit` without calling it (app.py:240, app.py:261). The test
  is always true, so neither method takes a token.
- Anonymous likes: `liking_message` reads the user's likes (app.py:377)
  before its login check, so an anonymous request fails with an error
  instead of the flashed redirect. No state changes either way.
- Unfollowing someone not followed: `list.remove` raises (app.py:263), so
  the request fails with an error. It is not a quiet no-op.
- Self-follow: nothing prevents it, and the model allows it.

## Left out

- Routing, templates, flash messages, redirect targets (including the
  `location` form field of the like toggle), the debug toolbar, the
  no-store cache header and the before-request hooks. The model keeps only
  their outcome.
- Login and logout (app.py:102-138) only write or clear the session key.
  The session is an explicit input to every handler instead.
- The read-only pages `show_user`, `show_following`, `show_followers` and
  `show_message` render a record or a relationship list. Those lists are
  `Graph.Following` and `Graph.Followers`.
- Password hashing, `User.signup` and `User.authenticate` live in models.py,
  which is not part of this model. The hash is an input to `Signup`, and the
  password check is the parameter `check`. The image-URL defaults are
  construction parameters of `Store`. A new user's bio and location are
  empty.
- Two sources of image defaults: signup falls back to the `image_url`
  column default (app.py:86) and leaves the header image to its column
  default, while the profile edit uses the constants `DEFAULT_IMAGE_URL` and
  `DEFAULT_HEADER_IMAGE_URL` (app.py:290-292). The column defaults live in
  models.py, so the model assumes each column default equals its constant and
  uses one default per image.
- Form validation (field formats, the 140-character message bound) and
  anti-forgery tokens are library behaviour. Each is a boolean input.
- SQL `LIKE` wildcards (`%`, `_`) and the default escape character (`\`)
  inside the search term. The term is matched as plain text.
- Database-assigned ids and timestamps. Ids come from counters and the
  timestamp is the input `now`.
- Ties between equal timestamps. The database leaves their order open. The
  model keeps them in table order, and every stated property holds for any
  tie order.
- Cascades on deleting a user or a message depend on relationship settings
  in models.py. The model states them as an assumption: dependent rows go
  with the row they refer to, so no edge is left dangling.
- Warbler.Store.StartFollowing: following a user who is already followed
  leaves the edge set as it is. What the database does with a second,
  identical row depends on models.py.
- Concurrency and transactions. Each handler is one atomic step on the store.
