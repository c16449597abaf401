/** The filter / order-by-timestamp-descending / limit-100 rule shared by the
    home feed and the liked-messages page. */
module Feed {
  import opened Domain

  /** The `.limit(100)` of both message queries. */
  const FeedLimit: nat := 100

  /** Non-increasing by timestamp: the order of `order_by(timestamp.desc())`. */
  predicate NewestFirst(s: seq<Message>)
  {
    forall i, j :: 0 <= i < j < |s| ==> s[j].timestamp <= s[i].timestamp
  }

  /** The rows of `ms` that `keep` accepts, in table order (a `filter`). */
  function Select(ms: seq<Message>, keep: Message -> bool): (r: seq<Message>)
    ensures forall m :: m in r <==> m in ms && keep(m)
    ensures |r| <= |ms|
  {
    if ms == [] then []
    else if keep(ms[0]) then [ms[0]] + Select(ms[1..], keep)
    else Select(ms[1..], keep)
  }

  /** No two rows share an id (the primary key of the messages table). */
  predicate DistinctIds(ms: seq<Message>)
  {
    forall i, j :: 0 <= i < j < |ms| ==> ms[i].id != ms[j].id
  }

  lemma {:induction false} SelectKeepsDistinct(ms: seq<Message>, keep: Message -> bool)
    ensures DistinctIds(ms) ==> DistinctIds(Select(ms, keep))
  {
    if ms != [] && DistinctIds(ms) {
      assert DistinctIds(ms[1..]) by {
        forall i, j | 0 <= i < j < |ms[1..]| ensures ms[1..][i].id != ms[1..][j].id {
          assert ms[1..][i] == ms[i + 1] && ms[1..][j] == ms[j + 1];
        }
      }
      SelectKeepsDistinct(ms[1..], keep);
      var rest := Select(ms[1..], keep);
      forall k | 0 <= k < |rest| ensures rest[k].id != ms[0].id {
        assert rest[k] in ms[1..];
        var j :| 0 <= j < |ms[1..]| && ms[1..][j] == rest[k];
        assert ms[j + 1] == rest[k];
      }
    }
  }

  /** The rows of `ms` whose author is in `authors` (`user_id.in_(...)`). */
  function ByAuthors(ms: seq<Message>, authors: set<UserId>): (r: seq<Message>)
    ensures forall m :: m in r <==> m in ms && m.authorId in authors
  {
    Select(ms, (m: Message) => m.authorId in authors)
  }

  /** The rows of `ms` whose id is in `ids` (`id.in_(...)`). */
  function WithIds(ms: seq<Message>, ids: set<MessageId>): (r: seq<Message>)
    ensures forall m :: m in r <==> m in ms && m.id in ids
  {
    Select(ms, (m: Message) => m.id in ids)
  }

  /** The table without the row whose id is `mid` (a `session.delete`). */
  function WithoutId(ms: seq<Message>, mid: MessageId): (r: seq<Message>)
    ensures forall m :: m in r <==> m in ms && m.id != mid
    ensures DistinctIds(ms) ==> DistinctIds(r)
  {
    var keep := (m: Message) => m.id != mid;
    SelectKeepsDistinct(ms, keep);
    Select(ms, keep)
  }

  /** The table without the rows written by `author`. */
  function WithoutAuthor(ms: seq<Message>, author: UserId): (r: seq<Message>)
    ensures forall m :: m in r <==> m in ms && m.authorId != author
    ensures DistinctIds(ms) ==> DistinctIds(r)
  {
    var keep := (m: Message) => m.authorId != author;
    SelectKeepsDistinct(ms, keep);
    Select(ms, keep)
  }

  /** Places `m` in front of the first row that is not newer than it. */
  function InsertByTime(m: Message, s: seq<Message>): (r: seq<Message>)
    ensures |r| == |s| + 1
  {
    if s == [] || s[0].timestamp <= m.timestamp then [m] + s
    else [s[0]] + InsertByTime(m, s[1..])
  }

  /** Newest first; rows with equal timestamps keep their table order. */
  function SortNewestFirst(s: seq<Message>): (r: seq<Message>)
    ensures |r| == |s|
  {
    if s == [] then [] else InsertByTime(s[0], SortNewestFirst(s[1..]))
  }

  lemma {:induction false} InsertPermutes(m: Message, s: seq<Message>)
    ensures multiset(InsertByTime(m, s)) == multiset(s) + multiset{m}
  {
    if s != [] && m.timestamp < s[0].timestamp {
      InsertPermutes(m, s[1..]);
      assert s == [s[0]] + s[1..];
    }
  }

  lemma {:induction false} InsertKeepsOrder(m: Message, s: seq<Message>)
    requires NewestFirst(s)
    ensures NewestFirst(InsertByTime(m, s))
  {
    if s != [] && m.timestamp < s[0].timestamp {
      var rest := InsertByTime(m, s[1..]);
      InsertKeepsOrder(m, s[1..]);
      InsertPermutes(m, s[1..]);
      forall k | 0 <= k < |rest|
        ensures rest[k].timestamp <= s[0].timestamp
      {
        assert rest[k] in multiset(rest);
        assert rest[k] == m || rest[k] in multiset(s[1..]);
      }
    }
  }

  lemma {:induction false} SortPermutes(s: seq<Message>)
    ensures multiset(SortNewestFirst(s)) == multiset(s)
  {
    if s != [] {
      SortPermutes(s[1..]);
      InsertPermutes(s[0], SortNewestFirst(s[1..]));
      assert s == [s[0]] + s[1..];
    }
  }

  lemma SortKeepsRows(s: seq<Message>)
    ensures forall m :: m in s <==> m in SortNewestFirst(s)
  {
    var sorted := SortNewestFirst(s);
    SortPermutes(s);
    forall m
      ensures m in s <==> m in sorted
    {
      calc {
        m in s;
        m in multiset(s);
        m in multiset(sorted);
        m in sorted;
      }
    }
  }

  lemma {:induction false} SortOrders(s: seq<Message>)
    ensures NewestFirst(SortNewestFirst(s))
  {
    if s != [] {
      SortOrders(s[1..]);
      InsertKeepsOrder(s[0], SortNewestFirst(s[1..]));
    }
  }

  /** The newest `FeedLimit` of the eligible rows, newest first: what
      `order_by(timestamp.desc()).limit(100)` returns for them. */
  function Window(eligible: seq<Message>): (w: seq<Message>)
    ensures NewestFirst(w)
    ensures |w| == if |eligible| <= FeedLimit then |eligible| else FeedLimit
    ensures forall m :: m in w ==> m in eligible
    ensures multiset(w) <= multiset(eligible)
    ensures |eligible| <= FeedLimit ==> multiset(w) == multiset(eligible)
    ensures forall m :: m in eligible && m !in w ==>
              |eligible| > FeedLimit && forall k :: 0 <= k < |w| ==> m.timestamp <= w[k].timestamp
  {
    var sorted := SortNewestFirst(eligible);
    SortPermutes(eligible);
    SortOrders(eligible);
    SortKeepsRows(eligible);
    if |sorted| <= FeedLimit then sorted
    else
      var w := sorted[..FeedLimit];
      WindowDropsOnlyOlder(sorted, FeedLimit);
      w
  }

  /** Cutting a newest-first sequence keeps a sub-multiset, and every row that
      was cut off is no newer than any row that was kept. */
  lemma WindowDropsOnlyOlder(sorted: seq<Message>, n: nat)
    requires NewestFirst(sorted) && n <= |sorted|
    ensures multiset(sorted[..n]) <= multiset(sorted)
    ensures forall m :: m in sorted && m !in sorted[..n] ==>
              forall k :: 0 <= k < n ==> m.timestamp <= sorted[k].timestamp
  {
    assert sorted == sorted[..n] + sorted[n..];
    forall m | m in sorted && m !in sorted[..n]
      ensures forall k :: 0 <= k < n ==> m.timestamp <= sorted[k].timestamp
    {
      var j :| 0 <= j < |sorted| && sorted[j] == m;
      assert j >= n;
    }
  }
}
