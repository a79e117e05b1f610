/** The records the pipeline passes around: the internal tweet (as
    server/services/twitter/transform.js builds it and the `tweet` table
    stores it), the contribution row, and the three camps. */
module Records {
  import opened Js

  // The camp ids. Policy maker and youth are the ids the seed data gives
  // those camps; the broker camp's id only has to differ from both.
  const PolicyMaker: int := 1
  const Youth: int := 2
  const Broker: int := 3

  /** The three triads that make a tweet a contribution: an author of one
      camp mentioning handles of both other camps. */
  predicate CampTriad(author: Option<int>, mentionsPm: bool, mentionsYouth: bool, mentionsBroker: bool)
  {
    || (author == Some(Broker) && mentionsPm && mentionsYouth)
    || (author == Some(PolicyMaker) && mentionsYouth && mentionsBroker)
    || (author == Some(Youth) && mentionsPm && mentionsBroker)
  }

  /** The author of a tweet. `location`, `url` and `description` may be
      null in the Twitter payload. The account's creation date is not
      modelled. */
  datatype User = User(
    id: string,
    name: string,
    screenName: string,
    location: Option<string>,
    url: Option<string>,
    description: Option<string>,
    profileImageUrl: string,
    profileAvatarUrl: string,
    verified: bool)

  /** A user mention as the internal tweet keeps it. */
  datatype Mention = Mention(id: string, name: string, screenName: string)

  /** The `entities` object: the mentions, and every other key (hashtags,
      urls, media, …) with its JSON text. */
  datatype Entities = Entities(userMentions: seq<Mention>, others: map<string, string>)

  /** The internal tweet. `contributionId` is the column the contribution
      detector sets; the creation date is not modelled. */
  datatype Tweet = Tweet(
    id: string,
    text: string,
    lang: string,
    userId: string,
    user: User,
    favorited: bool,
    retweeted: bool,
    entities: Entities,
    extendedEntities: Option<map<string, string>>,
    parentId: Option<string>,
    inReplyToUserId: Option<string>,
    inReplyToScreenName: Option<string>,
    contributionId: Option<int>)

  /** A row of the `contribution` table. */
  datatype Contribution = Contribution(
    id: int,
    tweetId: string,
    campId: Option<int>,
    involvesPm: bool,
    involvesYouth: bool,
    tweets: int,
    contributors: seq<string>)

  /** A new contribution row, before the tweet that starts it is counted. */
  function Fresh(id: int, tweetId: string, campId: Option<int>, pm: bool, youth: bool): Contribution
  {
    Contribution(id, tweetId, campId, pm, youth, 0, [])
  }

  /** What the update rule of both contribution detectors does to the
      contribution a tweet belongs to: one more tweet, the author's screen
      name added to the de-duplicated contributor list, and each
      involvement flag switched on when the author's flag is set. */
  function AddTweet(c: Contribution, screenName: string, youth: bool, pm: bool): Contribution
  {
    c.(tweets := c.tweets + 1,
       contributors := Uniq(c.contributors + [screenName]),
       involvesYouth := if youth then true else c.involvesYouth,
       involvesPm := if pm then true else c.involvesPm)
  }

  /** The update counts exactly one tweet, lists every earlier contributor
      and the author once each, only switches flags on, and keeps the
      row's identity. */
  lemma AddTweetEffect(c: Contribution, screenName: string, youth: bool, pm: bool)
    ensures var r := AddTweet(c, screenName, youth, pm);
            && r.tweets == c.tweets + 1
            && (forall n :: n in r.contributors <==> n in c.contributors || n == screenName)
            && Distinct(r.contributors)
            && (r.involvesYouth <==> c.involvesYouth || youth)
            && (r.involvesPm <==> c.involvesPm || pm)
            && r.id == c.id && r.tweetId == c.tweetId && r.campId == c.campId
  {
  }

  /** On a duplicate-free contributor list the update keeps the order and
      appends the author at the end, unless the author is already listed. */
  lemma AddTweetAppends(c: Contribution, screenName: string, youth: bool, pm: bool)
    requires Distinct(c.contributors)
    ensures AddTweet(c, screenName, youth, pm).contributors ==
            if screenName in c.contributors then c.contributors else c.contributors + [screenName]
  {
    UniqSnoc(c.contributors, screenName);
    UniqOfDistinct(c.contributors);
  }

  /** A second tweet by the same author counts again but does not list the
      author twice. */
  lemma AddTweetTwice(c: Contribution, screenName: string, youth: bool, pm: bool)
    ensures var once := AddTweet(c, screenName, youth, pm);
            var twice := AddTweet(once, screenName, youth, pm);
            twice.tweets == c.tweets + 2 && twice.contributors == once.contributors
  {
    var once := AddTweet(c, screenName, youth, pm);
    AddTweetAppends(once, screenName, youth, pm);
  }

  /** The first tweet of a fresh contribution leaves it with one tweet and
      the author as its only contributor. */
  lemma FirstTweet(id: int, tweetId: string, campId: Option<int>, screenName: string, youth: bool, pm: bool)
    ensures var r := AddTweet(Fresh(id, tweetId, campId, pm, youth), screenName, youth, pm);
            r.tweets == 1 && r.contributors == [screenName]
            && r.involvesPm == pm && r.involvesYouth == youth
  {
    assert [] + [screenName] == [screenName];
    UniqOfDistinct([screenName]);
  }
}
