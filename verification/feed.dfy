/**
 * Feed assembly and likes in the tweet service (tweet-microservice/server/database.go).
 *
 * The Cassandra table `tweets` has `id` as its primary key and is a map from
 * id to row.  Timestamps are carried as integers and only copied.
 */
module Feed {
  import opened Wrappers
  import opened Search

  datatype UserProfile = UserProfile(id: string, name: string, username: string)

  datatype UserFollowing = UserFollowing(id: string, name: string, username: string, userType: string)

  datatype Tweet = Tweet(id: string, text: string, likes: Option<seq<string>>, tweet: string, user: string, createdAt: int)

  datatype TweetWithUser = TweetWithUser(
    id: string, text: string, likes: Option<seq<string>>, tweet: string, user: UserProfile, createdAt: int)

  datatype TweetWithRetweet = TweetWithRetweet(
    id: string, text: string, likes: Option<seq<string>>, tweet: TweetWithUser, user: UserProfile, createdAt: int)

  const ZeroProfile := UserProfile("", "", "")
  const ZeroTweetWithUser := TweetWithUser("", "", None, "", ZeroProfile, 0)
  const ZeroTweet := Tweet("", "", None, "", "", 0)

  const LikeMessage := "SUCCESSFUL LIKE POST"
  const UnlikeMessage := "SUCCESSFUL UNLIKE POST"

  // ---------------------------------------------------------- de-duplication

  function Ids(s: seq<TweetWithRetweet>): (ids: seq<string>)
    ensures |ids| == |s| && forall k :: 0 <= k < |s| ==> ids[k] == s[k].id
  {
    seq(|s|, k requires 0 <= k < |s| => s[k].id)
  }

  predicate DistinctIds(s: seq<TweetWithRetweet>) {
    forall i, j :: 0 <= i < j < |s| ==> s[i].id != s[j].id
  }

  /** The position of the first entry with the id, |s| when there is none. */
  function IndexOfId(s: seq<TweetWithRetweet>, id: string): (i: nat)
    ensures i <= |s|
    ensures i < |s| ==> s[i].id == id
    ensures forall j :: 0 <= j < i ==> s[j].id != id
  {
    FirstWhere(s, (t: TweetWithRetweet) => t.id == id)
  }

  /** One step of RemoveDuplicated: overwrite the entry with v's id, or append v. */
  function Upsert(unique: seq<TweetWithRetweet>, v: TweetWithRetweet): seq<TweetWithRetweet> {
    var i := IndexOfId(unique, v.id);
    if i < |unique| then unique[i := v] else unique + [v]
  }

  /** RemoveDuplicated as a left fold of Upsert. */
  function Dedup(s: seq<TweetWithRetweet>): seq<TweetWithRetweet> {
    if s == [] then [] else Upsert(Dedup(s[..|s| - 1]), s[|s| - 1])
  }

  /** The reference order: each id once, at its first occurrence. */
  function Nub(ids: seq<string>): (r: seq<string>)
    ensures |r| <= |ids|
    ensures forall x :: x in r <==> x in ids
    ensures forall i, j :: 0 <= i < j < |r| ==> r[i] != r[j]
  {
    if ids == [] then []
    else
      assert ids == ids[..|ids| - 1] + [ids[|ids| - 1]];
      var p := Nub(ids[..|ids| - 1]);
      if ids[|ids| - 1] in p then p else p + [ids[|ids| - 1]]
  }

  /** The position of the last entry with the id, -1 when there is none. */
  function LastIndexWithId(s: seq<TweetWithRetweet>, id: string): (i: int)
    ensures -1 <= i < |s|
    ensures i >= 0 ==> s[i].id == id
    ensures forall j :: i < j < |s| ==> s[j].id != id
  {
    if s == [] then -1
    else if s[|s| - 1].id == id then |s| - 1
    else LastIndexWithId(s[..|s| - 1], id)
  }

  /** One Upsert step adds v's id at the end when it is new and keeps the ids otherwise. */
  lemma UpsertIds(d: seq<TweetWithRetweet>, v: TweetWithRetweet)
    ensures Ids(Upsert(d, v)) == if v.id in Ids(d) then Ids(d) else Ids(d) + [v.id]
  {
    var i := IndexOfId(d, v.id);
    if i < |d| {
      assert Ids(d)[i] == v.id;
      assert Ids(d[i := v]) == Ids(d);
    } else {
      assert v.id !in Ids(d);
      assert Ids(d + [v]) == Ids(d) + [v.id];
    }
  }

  /** The ids RemoveDuplicated keeps are the input's ids, each once, in order of first occurrence. */
  lemma {:induction false} DedupIdsAreNub(s: seq<TweetWithRetweet>)
    ensures Ids(Dedup(s)) == Nub(Ids(s))
  {
    if s != [] {
      var p := s[..|s| - 1];
      DedupIdsAreNub(p);
      assert Ids(s)[..|s| - 1] == Ids(p);
      UpsertIds(Dedup(p), s[|s| - 1]);
    }
  }

  /** RemoveDuplicated leaves distinct ids and never grows the list. */
  lemma DedupDistinct(s: seq<TweetWithRetweet>)
    ensures DistinctIds(Dedup(s)) && |Dedup(s)| <= |s|
  {
    DedupIdsAreNub(s);
    var r := Dedup(s);
    forall a, b | 0 <= a < b < |r|
      ensures r[a].id != r[b].id
    {
      assert Ids(r)[a] == r[a].id && Ids(r)[b] == r[b].id;
    }
  }

  /** Each kept entry is the last input element with its id. */
  lemma {:induction false} DedupLastWins(s: seq<TweetWithRetweet>)
    ensures forall k :: 0 <= k < |Dedup(s)| ==>
      LastIndexWithId(s, Dedup(s)[k].id) >= 0 && Dedup(s)[k] == s[LastIndexWithId(s, Dedup(s)[k].id)]
  {
    if s != [] {
      var p, v := s[..|s| - 1], s[|s| - 1];
      DedupLastWins(p);
      DedupDistinct(p);
      var d := Dedup(p);
      var r := Dedup(s);
      forall k | 0 <= k < |r|
        ensures LastIndexWithId(s, r[k].id) >= 0 && r[k] == s[LastIndexWithId(s, r[k].id)]
      {
        if r[k].id == v.id {
          var i := IndexOfId(d, v.id);
          assert k < |d| ==> d[k].id != v.id || k == i;
        } else {
          assert k < |d| && r[k] == d[k];
          assert LastIndexWithId(s, r[k].id) == LastIndexWithId(p, r[k].id);
        }
      }
    }
  }

  /** A list whose ids are already distinct is left as it is. */
  lemma {:induction false} DedupOfDistinct(t: seq<TweetWithRetweet>)
    requires DistinctIds(t)
    ensures Dedup(t) == t
  {
    if t != [] {
      var p := t[..|t| - 1];
      DedupOfDistinct(p);
      assert IndexOfId(p, t[|t| - 1].id) == |p|;
      assert p + [t[|t| - 1]] == t;
    }
  }

  /** RemoveDuplicated is idempotent. */
  lemma DedupIdempotent(s: seq<TweetWithRetweet>)
    ensures Dedup(Dedup(s)) == Dedup(s)
  {
    DedupDistinct(s);
    DedupOfDistinct(Dedup(s));
  }

  /** RemoveDuplicated: the labelled nested loop that overwrites or appends. */
  method RemoveDuplicated(sample: seq<TweetWithRetweet>) returns (unique: seq<TweetWithRetweet>)
    ensures unique == Dedup(sample)
  {
    unique := [];
    label sampleLoop:
    for k := 0 to |sample|
      invariant unique == Dedup(sample[..k])
    {
      var v := sample[k];
      assert sample[..k + 1][..k] == sample[..k];
      assert Dedup(sample[..k + 1]) == Upsert(Dedup(sample[..k]), v);
      for i := 0 to |unique|
        invariant unique == Dedup(sample[..k])
        invariant forall j :: 0 <= j < i ==> unique[j].id != v.id
      {
        if v.id == unique[i].id {
          unique := unique[i := v];
          continue sampleLoop;
        }
      }
      unique := unique + [v];
    }
    assert sample[..|sample|] == sample;
  }

  // ------------------------------------------------------------ the feed

  /** The copy shown for a retweet of someone the user does not follow: its Id, Text and Likes cleared. */
  function Masked(t: TweetWithRetweet): TweetWithRetweet {
    t.(tweet := t.tweet.(id := "", text := "", likes := None))
  }

  /** The embedded tweet's author is followed by someone in the list. */
  predicate Followed(users: seq<UserFollowing>, t: TweetWithRetweet) {
    exists u :: u in users && u.id == t.tweet.user.id
  }

  /** The inner loop's private rows for one user. */
  function PrivateFor(user: UserFollowing, tweets: seq<TweetWithRetweet>): seq<TweetWithRetweet> {
    if tweets == [] then []
    else
      var t := tweets[|tweets| - 1];
      PrivateFor(user, tweets[..|tweets| - 1]) + (if user.id != t.tweet.user.id then [Masked(t)] else [])
  }

  /** The inner loop's public rows for one user. */
  function PublicFor(user: UserFollowing, tweets: seq<TweetWithRetweet>): seq<TweetWithRetweet> {
    if tweets == [] then []
    else
      var t := tweets[|tweets| - 1];
      PublicFor(user, tweets[..|tweets| - 1]) + (if user.id == t.tweet.user.id then [t] else [])
  }

  /** The rows the private slice holds after the outer loop. */
  function Private(users: seq<UserFollowing>, tweets: seq<TweetWithRetweet>): seq<TweetWithRetweet> {
    if users == [] then []
    else Private(users[..|users| - 1], tweets) + PrivateFor(users[|users| - 1], tweets)
  }

  /** The rows the public slice holds after the outer loop. */
  function Public(users: seq<UserFollowing>, tweets: seq<TweetWithRetweet>): seq<TweetWithRetweet> {
    if users == [] then []
    else Public(users[..|users| - 1], tweets) + PublicFor(users[|users| - 1], tweets)
  }

  /** A private row for one user is the masked copy of a tweet by someone else. */
  lemma {:induction false} PrivateForRows(user: UserFollowing, tweets: seq<TweetWithRetweet>, x: TweetWithRetweet)
    ensures x in PrivateFor(user, tweets) <==> exists t :: t in tweets && user.id != t.tweet.user.id && x == Masked(t)
  {
    if tweets != [] {
      PrivateForRows(user, tweets[..|tweets| - 1], x);
      assert tweets == tweets[..|tweets| - 1] + [tweets[|tweets| - 1]];
    }
  }

  /** A public row for one user is a tweet of theirs, unchanged. */
  lemma {:induction false} PublicForRows(user: UserFollowing, tweets: seq<TweetWithRetweet>, x: TweetWithRetweet)
    ensures x in PublicFor(user, tweets) <==> x in tweets && user.id == x.tweet.user.id
  {
    if tweets != [] {
      PublicForRows(user, tweets[..|tweets| - 1], x);
      assert tweets == tweets[..|tweets| - 1] + [tweets[|tweets| - 1]];
    }
  }

  /** The private slice: a masked copy of each tweet for each user who is not its author. */
  lemma {:induction false} PrivateRows(users: seq<UserFollowing>, tweets: seq<TweetWithRetweet>, x: TweetWithRetweet)
    ensures x in Private(users, tweets) <==>
      exists u, t :: u in users && t in tweets && u.id != t.tweet.user.id && x == Masked(t)
  {
    if users != [] {
      var init, last := users[..|users| - 1], users[|users| - 1];
      PrivateRows(init, tweets, x);
      PrivateForRows(last, tweets, x);
      assert users == init + [last];
      if x in Private(users, tweets) {
        if x !in Private(init, tweets) {
          var t :| t in tweets && last.id != t.tweet.user.id && x == Masked(t);
          assert last in users;
        } else {
          var u, t :| u in init && t in tweets && u.id != t.tweet.user.id && x == Masked(t);
          assert u in users;
        }
      } else {
        forall u, t | u in users && t in tweets && u.id != t.tweet.user.id
          ensures x != Masked(t)
        {
          if u != last {
            assert u in init;
          }
        }
      }
    }
  }

  /** The public slice: each tweet whose author is one of the users, once per such user. */
  lemma {:induction false} PublicRows(users: seq<UserFollowing>, tweets: seq<TweetWithRetweet>, x: TweetWithRetweet)
    ensures x in Public(users, tweets) <==> x in tweets && Followed(users, x)
  {
    if users != [] {
      var init, last := users[..|users| - 1], users[|users| - 1];
      PublicRows(init, tweets, x);
      PublicForRows(last, tweets, x);
      assert users == init + [last];
      if Followed(users, x) && x in tweets {
        var u :| u in users && u.id == x.tweet.user.id;
        if u != last {
          assert u in init;
        }
      }
      if x in Public(init, tweets) {
        var u :| u in init && u.id == x.tweet.user.id;
        assert u in users;
      }
    }
  }

  /** GetTweetsForFeed: for every (user, tweet) pair a masked or a plain copy; then RemoveDuplicated(private ++ public). */
  method GetTweetsForFeed(users: seq<UserFollowing>, tweets: seq<TweetWithRetweet>) returns (result: seq<TweetWithRetweet>)
    ensures result == Dedup(Private(users, tweets) + Public(users, tweets))
  {
    var private, public := [], [];
    for i := 0 to |users|
      invariant private == Private(users[..i], tweets)
      invariant public == Public(users[..i], tweets)
    {
      var user := users[i];
      assert users[..i + 1][..i] == users[..i];
      for j := 0 to |tweets|
        invariant private == Private(users[..i], tweets) + PrivateFor(user, tweets[..j])
        invariant public == Public(users[..i], tweets) + PublicFor(user, tweets[..j])
      {
        assert tweets[..j + 1][..j] == tweets[..j];
        var tweetReduced := tweets[j];
        if user.id != tweets[j].tweet.user.id {
          tweetReduced := Masked(tweets[j]);
          private := private + [tweetReduced];
        } else {
          public := public + [tweetReduced];
        }
      }
      assert tweets[..|tweets|] == tweets;
    }
    assert users[..|users|] == users;
    result := RemoveDuplicated(private + public);
  }

  predicate DistinctTweets(tweets: seq<TweetWithRetweet>) {
    forall t1, t2 :: t1 in tweets && t2 in tweets && t1.id == t2.id ==> t1 == t2
  }

  /** The row the feed keeps for an id is the last row with that id in private ++ public. */
  lemma FeedEntryIsLastRow(s: seq<TweetWithRetweet>, x: TweetWithRetweet)
    requires x in Dedup(s)
    ensures LastIndexWithId(s, x.id) >= 0 && x == s[LastIndexWithId(s, x.id)]
  {
    DedupLastWins(s);
  }

  /** When the last row with an id lies in the prefix, the suffix has no row with that id. */
  lemma LastRowBeforeSuffix(p: seq<TweetWithRetweet>, q: seq<TweetWithRetweet>, id: string)
    requires LastIndexWithId(p + q, id) < |p|
    ensures forall y :: y in q ==> y.id != id
  {
    forall y | y in q
      ensures y.id != id
    {
      var m :| 0 <= m < |q| && q[m] == y;
      assert (p + q)[|p| + m] == y;
    }
  }

  /**
   * With tweet ids distinct, the feed holds each id at most once; its entry
   * for a tweet keeps the embedded tweet's Id, Text and Likes exactly when
   * some user in the list is that tweet's author, and is masked otherwise.
   */
  lemma FeedMasking(users: seq<UserFollowing>, tweets: seq<TweetWithRetweet>, x: TweetWithRetweet)
    requires DistinctTweets(tweets)
    requires x in Dedup(Private(users, tweets) + Public(users, tweets))
    ensures exists t :: t in tweets && t.id == x.id
    ensures forall t :: t in tweets && t.id == x.id ==> x == if Followed(users, t) then t else Masked(t)
  {
    var p, q := Private(users, tweets), Public(users, tweets);
    FeedEntryIsLastRow(p + q, x);
    var last := LastIndexWithId(p + q, x.id);
    if last < |p| {
      assert x in p;
      PrivateRows(users, tweets, x);
      var u, t0 :| u in users && t0 in tweets && u.id != t0.tweet.user.id && x == Masked(t0);
      PrivateWinnerUnfollowed(users, tweets, t0);
    } else {
      assert x == q[last - |p|];
      PublicRows(users, tweets, x);
    }
  }

  /** A tweet whose last row lies in the private slice has no follower among the users. */
  lemma PrivateWinnerUnfollowed(users: seq<UserFollowing>, tweets: seq<TweetWithRetweet>, t: TweetWithRetweet)
    requires LastIndexWithId(Private(users, tweets) + Public(users, tweets), t.id) < |Private(users, tweets)|
    ensures !Followed(users, t) || t !in tweets
  {
    if Followed(users, t) && t in tweets {
      PublicRows(users, tweets, t);
      LastRowBeforeSuffix(Private(users, tweets), Public(users, tweets), t.id);
      assert false;
    }
  }

  /** The feed lists every id once. */
  lemma FeedDistinct(users: seq<UserFollowing>, tweets: seq<TweetWithRetweet>)
    ensures DistinctIds(Dedup(Private(users, tweets) + Public(users, tweets)))
  {
    DedupDistinct(Private(users, tweets) + Public(users, tweets));
  }

  /** Every tweet reaches the feed when there is a user; none does when there is none. */
  lemma FeedCoverage(users: seq<UserFollowing>, tweets: seq<TweetWithRetweet>, t: TweetWithRetweet)
    requires t in tweets
    ensures users == [] ==> Dedup(Private(users, tweets) + Public(users, tweets)) == []
    ensures users != [] ==> exists x :: x in Dedup(Private(users, tweets) + Public(users, tweets)) && x.id == t.id
  {
    var s := Private(users, tweets) + Public(users, tweets);
    DedupIdsAreNub(s);
    if users == [] {
      assert s == [];
    } else {
      var u := users[0];
      var y := if u.id == t.tweet.user.id then t else Masked(t);
      PrivateRows(users, tweets, y);
      PublicRows(users, tweets, y);
      assert y in s;
      var m :| 0 <= m < |s| && s[m] == y;
      assert Ids(s)[m] == t.id;
      assert t.id in Ids(Dedup(s));
      var k :| 0 <= k < |Dedup(s)| && Ids(Dedup(s))[k] == t.id;
      assert Dedup(s)[k] in Dedup(s);
    }
  }

  // ------------------------------------------------------- tweets by author

  /** The stored tweets written by the user with this id, in store order. */
  function AuthoredBy(stored: seq<Tweet>, id: string): (r: seq<Tweet>)
    ensures forall t :: t in r <==> t in stored && t.user == id
  {
    if stored == [] then []
    else
      assert stored == stored[..|stored| - 1] + [stored[|stored| - 1]];
      var t := stored[|stored| - 1];
      AuthoredBy(stored[..|stored| - 1], id) + (if t.user == id then [t] else [])
  }

  /** GetTweetsByUsersIds' result: each user's tweets in turn. */
  function ByUsers(users: seq<UserFollowing>, stored: seq<Tweet>): seq<Tweet> {
    if users == [] then []
    else ByUsers(users[..|users| - 1], stored) + AuthoredBy(stored, users[|users| - 1].id)
  }

  /** The number of entries of the user list with the id. */
  function CountId(users: seq<UserFollowing>, id: string): nat {
    if users == [] then 0
    else CountId(users[..|users| - 1], id) + (if users[|users| - 1].id == id then 1 else 0)
  }

  lemma {:induction false} AuthoredByMultiplicity(stored: seq<Tweet>, id: string, t: Tweet)
    ensures multiset(AuthoredBy(stored, id))[t] == if t.user == id then multiset(stored)[t] else 0
  {
    if stored != [] {
      AuthoredByMultiplicity(stored[..|stored| - 1], id, t);
      assert stored == stored[..|stored| - 1] + [stored[|stored| - 1]];
    }
  }

  /** A stored tweet appears once per user entry whose id is its author. */
  lemma {:induction false} ByUsersMultiplicity(users: seq<UserFollowing>, stored: seq<Tweet>, t: Tweet)
    ensures multiset(ByUsers(users, stored))[t] == CountId(users, t.user) * multiset(stored)[t]
  {
    if users != [] {
      var init, last := users[..|users| - 1], users[|users| - 1];
      ByUsersMultiplicity(init, stored, t);
      AuthoredByMultiplicity(stored, last.id, t);
      var prev, add := ByUsers(init, stored), AuthoredBy(stored, last.id);
      var c, m := CountId(init, t.user), multiset(stored)[t];
      assert multiset(prev)[t] == c * m;
      assert multiset(ByUsers(users, stored))[t] == multiset(prev)[t] + multiset(add)[t] by {
        assert ByUsers(users, stored) == prev + add;
      }
      if last.id == t.user {
        assert multiset(add)[t] == m;
        assert CountId(users, t.user) == c + 1;
        MultiplyStep(c, m);
      } else {
        assert multiset(add)[t] == 0;
        assert CountId(users, t.user) == c;
      }
    }
  }

  lemma MultiplyStep(c: nat, m: nat)
    ensures (c + 1) * m == c * m + m
  {
  }

  /** GetTweetsByUsersIds: for each user, every stored tweet whose User is that user's Id. */
  method GetTweetsByUsersIds(users: seq<UserFollowing>, tweetsDatabase: seq<Tweet>) returns (tweets: seq<Tweet>)
    ensures tweets == ByUsers(users, tweetsDatabase)
  {
    tweets := [];
    for i := 0 to |users|
      invariant tweets == ByUsers(users[..i], tweetsDatabase)
    {
      var user := users[i];
      assert users[..i + 1][..i] == users[..i];
      for j := 0 to |tweetsDatabase|
        invariant tweets == ByUsers(users[..i], tweetsDatabase) + AuthoredBy(tweetsDatabase[..j], user.id)
      {
        assert tweetsDatabase[..j + 1][..j] == tweetsDatabase[..j];
        if user.id == tweetsDatabase[j].user {
          tweets := tweets + [tweetsDatabase[j]];
        }
      }
      assert tweetsDatabase[..|tweetsDatabase|] == tweetsDatabase;
    }
    assert users[..|users|] == users;
  }

  // ------------------------------------------------------------ retweets

  /** The entry for one tweet: its retweet resolved through `retweetOf`, or the empty embedded tweet. */
  function WithRetweet(t: TweetWithUser, retweetOf: string -> TweetWithUser): TweetWithRetweet {
    TweetWithRetweet(t.id, t.text, t.likes, if t.tweet != "" then retweetOf(t.tweet) else ZeroTweetWithUser, t.user, t.createdAt)
  }

  /**
   * GetRetweetsForTweet: one entry per tweet, in order.  `retweetOf` stands
   * for GetById followed by GetTweetsWithUser of the referenced tweet.
   */
  method GetRetweetsForTweet(tweets: seq<TweetWithUser>, retweetOf: string -> TweetWithUser)
    returns (tweetsReturn: seq<TweetWithRetweet>)
    ensures |tweetsReturn| == |tweets|
    ensures forall k :: 0 <= k < |tweets| ==>
      && tweetsReturn[k].id == tweets[k].id && tweetsReturn[k].text == tweets[k].text
      && tweetsReturn[k].likes == tweets[k].likes && tweetsReturn[k].user == tweets[k].user
      && tweetsReturn[k].createdAt == tweets[k].createdAt
      && tweetsReturn[k].tweet == (if tweets[k].tweet == "" then ZeroTweetWithUser else retweetOf(tweets[k].tweet))
  {
    tweetsReturn := [];
    for i := 0 to |tweets|
      invariant |tweetsReturn| == i
      invariant forall k :: 0 <= k < i ==> tweetsReturn[k] == WithRetweet(tweets[k], retweetOf)
    {
      tweetsReturn := tweetsReturn + [WithRetweet(tweets[i], retweetOf)];
    }
  }

  // ----------------------------------------------------------------- likes

  /** The position of the first occurrence of u. */
  function FirstIndex(list: seq<string>, u: string): (i: nat)
    requires u in list
    ensures i < |list| && list[i] == u && forall j :: 0 <= j < i ==> list[j] != u
  {
    if list[0] == u then 0 else 1 + FirstIndex(list[1..], u)
  }

  /** The likes after a toggle: nil becomes [u], an absent u is appended, a present u loses its first occurrence. */
  function Toggled(likes: Option<seq<string>>, u: string): Option<seq<string>> {
    match likes
    case None => Some([u])
    case Some(list) =>
      if u in list then
        var i := FirstIndex(list, u);
        Some(list[..i] + list[i + 1..])
      else Some(list + [u])
  }

  /** A like followed by an unlike by the same user restores the list. */
  lemma LikeThenUnlike(list: seq<string>, u: string)
    requires u !in list
    ensures Toggled(Toggled(Some(list), u), u) == Some(list)
  {
    var liked := list + [u];
    assert liked[|list|] == u;
    assert FirstIndex(liked, u) == |list|;
    assert liked[..|list|] + liked[|list| + 1..] == list;
  }

  /** An unlike removes exactly one occurrence of u and keeps every other entry in order. */
  lemma UnlikeRemovesOne(list: seq<string>, u: string)
    requires u in list
    ensures var r := Toggled(Some(list), u).value;
      && multiset(r) == multiset(list) - multiset{u}
      && exists i :: 0 <= i < |list| && list[i] == u && r == list[..i] + list[i + 1..]
  {
    var i := FirstIndex(list, u);
    assert list == list[..i] + [u] + list[i + 1..];
  }

  /** A like appends the user at the end. */
  lemma LikeAppends(likes: Option<seq<string>>, u: string)
    requires likes.None? || u !in likes.value
    ensures Toggled(likes, u) == Some((if likes.None? then [] else likes.value) + [u])
  {
    assert [] + [u] == [u];
  }

  /** LikeUnlikeTweet's decision on the loaded likes: scan for the user, then append or remove the first occurrence. */
  method ToggleLike(likes: Option<seq<string>>, userId: string) returns (newLikes: Option<seq<string>>, message: string)
    ensures newLikes == Toggled(likes, userId)
    ensures message == if likes.Some? && userId in likes.value then UnlikeMessage else LikeMessage
  {
    if likes.None? {
      return Some([userId]), LikeMessage;
    }
    var list := likes.value;
    var alreadyLike := false;
    for i := 0 to |list|
      invariant alreadyLike <==> userId in list[..i]
    {
      assert list[..i + 1] == list[..i] + [list[i]];
      if list[i] == userId {
        alreadyLike := true;
      }
    }
    assert list[..|list|] == list;
    if !alreadyLike {
      return Some(list + [userId]), LikeMessage;
    }
    var i := 0;
    while list[i] != userId
      invariant 0 <= i <= FirstIndex(list, userId)
      decreases FirstIndex(list, userId) - i
    {
      i := i + 1;
    }
    return Some(list[..i] + list[i + 1..]), UnlikeMessage;
  }

  /** Cassandra stores an empty list as null, so it reads back as nil. */
  function StoredLikes(likes: Option<seq<string>>): Option<seq<string>> {
    if likes == Some([]) then None else likes
  }

  /** Nil and the empty list toggle alike, so the null-for-empty storage is invisible to likes. */
  lemma StoredLikesToggleAlike(likes: Option<seq<string>>, u: string)
    ensures Toggled(StoredLikes(likes), u) == Toggled(likes, u)
  {
    assert [] + [u] == [u];
  }

  /** GetById: the row with the id, or the zero Tweet. */
  function GetById(rows: map<string, Tweet>, id: string): Tweet {
    if id in rows then rows[id] else ZeroTweet
  }

  /**
   * The table after LikeUnlikeTweet.  The UPDATE is an upsert: on a missing
   * id it creates a row holding only the id and the likes.  Such a row has no
   * row marker (only INSERT writes one), so once its likes become null it has
   * no live cell and disappears; a row written by INSERT stays.
   */
  function AfterToggle(rows: map<string, Tweet>, inserted: set<string>, tweetId: string, userId: string): map<string, Tweet> {
    var before := GetById(rows, tweetId);
    var likes := StoredLikes(Toggled(before.likes, userId));
    if tweetId !in inserted && likes.None? then rows - {tweetId}
    else rows[tweetId := (if tweetId in rows then before else ZeroTweet.(id := tweetId)).(likes := likes)]
  }

  /** Every row was written by INSERT, or holds a non-null likes list that keeps it alive. */
  predicate RowsLive(rows: map<string, Tweet>, inserted: set<string>) {
    inserted <= rows.Keys && forall id :: id in rows && id !in inserted ==> rows[id].likes.Some?
  }

  /** A toggle keeps every stored row alive and touches no other row. */
  lemma AfterToggleKeepsRowsLive(rows: map<string, Tweet>, inserted: set<string>, tweetId: string, userId: string)
    requires RowsLive(rows, inserted)
    ensures RowsLive(AfterToggle(rows, inserted, tweetId, userId), inserted)
    ensures forall id :: id != tweetId ==>
      (id in AfterToggle(rows, inserted, tweetId, userId) <==> id in rows)
      && (id in rows ==> AfterToggle(rows, inserted, tweetId, userId)[id] == rows[id])
  {
  }

  /** A like and an unlike by the same user on an id that has no tweet leave the table as it was. */
  lemma {:induction false} ToggleTwiceOnMissingRow(rows: map<string, Tweet>, inserted: set<string>, tweetId: string, userId: string)
    requires RowsLive(rows, inserted) && tweetId !in rows
    ensures AfterToggle(AfterToggle(rows, inserted, tweetId, userId), inserted, tweetId, userId) == rows
  {
    var once := AfterToggle(rows, inserted, tweetId, userId);
    assert tweetId !in inserted;
    assert once[tweetId].likes == Some([userId]) by {
      assert [] + [userId] == [userId];
    }
    assert GetById(once, tweetId).likes == Some([userId]);
    assert Toggled(Some([userId]), userId) == Some([]) by {
      assert [userId][0] == userId;
      assert FirstIndex([userId], userId) == 0;
      assert [userId][..0] + [userId][1..] == [];
    }
    assert once - {tweetId} == rows;
  }

  class TweetTable {
    var rows: map<string, Tweet>
    /** The ids of rows written by INSERT, which carry a row marker. */
    var inserted: set<string>

    predicate Valid()
      reads this
    {
      RowsLive(rows, inserted)
    }

    constructor ()
      ensures Valid() && rows == map[] && inserted == {}
    {
      rows := map[];
      inserted := {};
    }

    /**
     * CreateTweet: INSERT a row under a fresh UUID, stamped with the current
     * time; an empty likes list is stored as null.
     */
    method CreateTweet(tweet: Tweet, id: string, now: int)
      requires Valid() && id !in rows
      modifies this
      ensures Valid()
      ensures rows == old(rows)[id := Tweet(id, tweet.text, StoredLikes(tweet.likes), tweet.tweet, tweet.user, now)]
      ensures inserted == old(inserted) + {id}
    {
      rows := rows[id := Tweet(id, tweet.text, StoredLikes(tweet.likes), tweet.tweet, tweet.user, now)];
      inserted := inserted + {id};
    }

    /** LikeUnlikeTweet: load the tweet, toggle the user in its likes, and UPDATE the likes column. */
    method LikeUnlikeTweet(tweetId: string, userId: string) returns (message: string)
      requires Valid()
      modifies this
      ensures Valid()
      ensures var before := GetById(old(rows), tweetId);
        message == if before.likes.Some? && userId in before.likes.value then UnlikeMessage else LikeMessage
      ensures rows == AfterToggle(old(rows), inserted, tweetId, userId) && inserted == old(inserted)
    {
      AfterToggleKeepsRowsLive(rows, inserted, tweetId, userId);
      var tweet := GetById(rows, tweetId);
      var newLikes;
      newLikes, message := ToggleLike(tweet.likes, userId);
      var stored := StoredLikes(newLikes);
      if tweetId !in inserted && stored.None? {
        rows := rows - {tweetId};
      } else {
        var row := if tweetId in rows then rows[tweetId] else ZeroTweet.(id := tweetId);
        rows := rows[tweetId := row.(likes := stored)];
      }
    }
  }

  /** Two toggles by a user who had not liked the tweet leave its likes as they were, up to null-for-empty. */
  lemma LikeUnlikeRoundTrip(likes: seq<string>, u: string)
    requires u !in likes
    ensures StoredLikes(Toggled(StoredLikes(Toggled(Some(likes), u)), u)) == StoredLikes(Some(likes))
  {
    LikeThenUnlike(likes, u);
  }
}
