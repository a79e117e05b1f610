/** The streaming side of server/services/twitter/stream.js (and the same
    code in server/services/twitter/index.js): what the stream is seeded
    with at start-up, how watch-list changes reach the stream, and what
    happens to each tweet the stream delivers, down to the socket rooms it
    is broadcast to. */
module Stream {
  import opened Js
  import opened Records
  import Transform

  const MaxUsers: nat := 5000
  const MaxKeywords: nat := 400

  /** The fields of a `handle` row seeding reads. */
  datatype HandleRow = HandleRow(id: string, username: string)

  /** The keyword array of a `topic` row. */
  datatype TopicRow = TopicRow(keywords: seq<string>)

  function Min(a: nat, b: nat): nat
  {
    if a <= b then a else b
  }

  /** `list.slice(0, n)`. */
  function Take<T>(s: seq<T>, n: nat): (r: seq<T>)
    ensures |r| == Min(|s|, n)
    ensures forall i | 0 <= i < |r| :: r[i] == s[i]
  {
    if |s| <= n then s else s[..n]
  }

  /** `handles.pluck('id').slice(0, MAX_USERS)`: the first 5000 handle ids,
      in fetch order. */
  function FollowIds(handles: seq<HandleRow>): (r: seq<string>)
    ensures |r| == Min(|handles|, MaxUsers)
    ensures forall i | 0 <= i < |r| :: r[i] == handles[i].id
  {
    Take(seq(|handles|, i requires 0 <= i < |handles| => handles[i].id), MaxUsers)
  }

  /** `topics.pluck('keywords').reduce((memo, k) => memo.concat(k), [])`. */
  function TopicKeywords(topics: seq<TopicRow>): seq<string>
  {
    if topics == [] then [] else TopicKeywords(topics[..|topics| - 1]) + topics[|topics| - 1].keywords
  }

  /** Every keyword of every topic is there, and nothing else. */
  lemma {:induction false} TopicKeywordsMembers(topics: seq<TopicRow>, k: string)
    ensures k in TopicKeywords(topics) <==> exists i | 0 <= i < |topics| :: k in topics[i].keywords
  {
    if topics != [] {
      var init := topics[..|topics| - 1];
      TopicKeywordsMembers(init, k);
      if exists i | 0 <= i < |init| :: k in init[i].keywords {
        var i :| 0 <= i < |init| && k in init[i].keywords;
        assert topics[i] == init[i];
      }
      if exists i | 0 <= i < |topics| :: k in topics[i].keywords {
        var i :| 0 <= i < |topics| && k in topics[i].keywords;
        if i < |init| {
          assert init[i] == topics[i];
        }
      }
    }
  }

  /** `@username` for each handle. */
  function AtNames(handles: seq<HandleRow>): (r: seq<string>)
    ensures |r| == |handles|
    ensures forall i | 0 <= i < |r| :: r[i] == "@" + handles[i].username
  {
    seq(|handles|, i requires 0 <= i < |handles| => "@" + handles[i].username)
  }

  /** The seeded keyword list: the topics' keywords in topic order, then
      `@username` per handle, cut to the first 400; no de-duplication. */
  function TrackKeywords(topics: seq<TopicRow>, handles: seq<HandleRow>): seq<string>
  {
    Take(TopicKeywords(topics) + AtNames(handles), MaxKeywords)
  }

  lemma TrackKeywordsLayout(topics: seq<TopicRow>, handles: seq<HandleRow>)
    ensures var kw := TopicKeywords(topics);
            var r := TrackKeywords(topics, handles);
            && |r| == Min(|kw| + |handles|, MaxKeywords)
            && (forall i | 0 <= i < |r| && i < |kw| :: r[i] == kw[i])
            && (forall i | |kw| <= i < |r| :: r[i] == "@" + handles[i - |kw|].username)
  {
  }

  /** What the stream object and the throttled reconnect are asked to do:
      each of `follow`, `unfollow`, `track`, `untrack` with its reconnect
      flag, and a reconnect request. */
  datatype Call =
    | FollowCall(ids: seq<string>, reconnect: bool)
    | UnfollowCall(ids: seq<string>, reconnect: bool)
    | TrackCall(keywords: seq<string>, reconnect: bool)
    | UntrackCall(keywords: seq<string>, reconnect: bool)
    | ReconnectRequested

  /** The calls of start-up seeding: `follow` for a non-empty id list,
      `track` for a non-empty keyword list, and one more reconnect
      request in any case. */
  function SeedCalls(topics: seq<TopicRow>, handles: seq<HandleRow>): seq<Call>
  {
    var users := FollowIds(handles);
    var keywords := TrackKeywords(topics, handles);
    (if users != [] then [FollowCall(users, false), ReconnectRequested] else [])
    + (if keywords != [] then [TrackCall(keywords, false), ReconnectRequested] else [])
    + [ReconnectRequested]
  }

  /** Seeding always asks for a reconnect, last; it follows exactly when
      there is a handle and tracks exactly when there is a topic keyword or
      a handle. */
  lemma SeedCallsShape(topics: seq<TopicRow>, handles: seq<HandleRow>)
    ensures var calls := SeedCalls(topics, handles);
            && calls[|calls| - 1] == ReconnectRequested
            && ((exists i | 0 <= i < |calls| :: calls[i].FollowCall?) <==> handles != [])
            && ((exists i | 0 <= i < |calls| :: calls[i].TrackCall?) <==> TopicKeywords(topics) != [] || handles != [])
            && (forall i | 0 <= i < |calls| && !calls[i].ReconnectRequested? :: !calls[i].reconnect)
  {
    var calls := SeedCalls(topics, handles);
    var users := FollowIds(handles);
    var keywords := TrackKeywords(topics, handles);
    TrackKeywordsLayout(topics, handles);
    if handles != [] {
      assert calls[0] == FollowCall(users, false);
    }
    if keywords != [] {
      var k := if users != [] then 2 else 0;
      assert calls[k] == TrackCall(keywords, false);
    }
  }

  /** The stream as the plugin drives it, with the calls made so far. */
  class StreamService {
    var calls: seq<Call>

    constructor ()
      ensures calls == []
    {
      calls := [];
    }

    /** `track(keywords)`: no reconnect by the stream itself, then a
        (throttled) reconnect request. */
    method Track(keywords: seq<string>)
      modifies this
      ensures calls == old(calls) + [TrackCall(keywords, false), ReconnectRequested]
    {
      calls := calls + [TrackCall(keywords, false), ReconnectRequested];
    }

    method Untrack(keywords: seq<string>)
      modifies this
      ensures calls == old(calls) + [UntrackCall(keywords, false), ReconnectRequested]
    {
      calls := calls + [UntrackCall(keywords, false), ReconnectRequested];
    }

    method Follow(ids: seq<string>)
      modifies this
      ensures calls == old(calls) + [FollowCall(ids, false), ReconnectRequested]
    {
      calls := calls + [FollowCall(ids, false), ReconnectRequested];
    }

    method Unfollow(ids: seq<string>)
      modifies this
      ensures calls == old(calls) + [UnfollowCall(ids, false), ReconnectRequested]
    {
      calls := calls + [UnfollowCall(ids, false), ReconnectRequested];
    }

    /** Start-up seeding from the fetched topics and handles. */
    method Seed(topics: seq<TopicRow>, handles: seq<HandleRow>)
      modifies this
      ensures calls == old(calls) + SeedCalls(topics, handles)
    {
      var users := FollowIds(handles);
      var keywords := TrackKeywords(topics, handles);
      if |users| > 0 {
        Follow(users);
      }
      if |keywords| > 0 {
        Track(keywords);
      }
      calls := calls + [ReconnectRequested];
    }
  }

  // ---------------------------------------------------------------------
  // Broadcast

  /** An element of what the topic processor resolves to: a plain number
      (what server/modules/topic.js returns) or a model with an `id`. */
  datatype TopicResult = TopicNumber(n: int) | TopicRecord(id: int)

  /** `topic:${topic.id}` as written: `.id` of a number is `undefined`. */
  function TopicRoom(t: TopicResult): string
  {
    "topic:" + match t
               case TopicRecord(id) => IntToString(id)
               case TopicNumber(_) => "undefined"
  }

  /** The room of a topic named by its id, whichever form it comes in. */
  function TopicRoomById(t: TopicResult): string
  {
    "topic:" + match t
               case TopicRecord(id) => IntToString(id)
               case TopicNumber(n) => IntToString(n)
  }

  /** The rooms `broadcast` emits `tweets:new` to, in order: the timeline,
      the author's room, one room per matched topic, and the room of the
      contribution `process` resolved to, if any. */
  function Rooms(userId: string, topics: seq<TopicResult>, contribution: Option<int>, room: TopicResult -> string): (r: seq<string>)
    ensures |r| == 2 + |topics| + (if contribution.Some? then 1 else 0)
    ensures r[0] == "timeline" && r[1] == "handle:" + userId
    ensures forall j | 2 <= j < 2 + |topics| :: r[j] == room(topics[j - 2])
    ensures contribution.Some? ==> r[|r| - 1] == "contribution:" + IntToString(contribution.value)
  {
    ["timeline", "handle:" + userId]
    + seq(|topics|, i requires 0 <= i < |topics| => room(topics[i]))
    + (if contribution.Some? then ["contribution:" + IntToString(contribution.value)] else [])
  }

  /** The topic processor's result for the matched topic ids. */
  function Numbers(ids: seq<int>): (r: seq<TopicResult>)
    ensures |r| == |ids|
    ensures forall i | 0 <= i < |ids| :: r[i] == TopicNumber(ids[i])
  {
    seq(|ids|, i requires 0 <= i < |ids| => TopicNumber(ids[i]))
  }

  /** As written, with the topic processor's plain numbers, every topic
      emit goes to the one room `topic:undefined`, whatever topics matched. */
  lemma TopicRoomsUndefined(userId: string, ids: seq<int>, contribution: Option<int>)
    ensures var rooms := Rooms(userId, Numbers(ids), contribution, TopicRoom);
            forall j | 2 <= j < 2 + |ids| :: rooms[j] == "topic:undefined"
  {
  }

  /** Two different topics share the room as written. */
  lemma TopicRoomsCollide()
    ensures var rooms := Rooms("1", Numbers([1, 2]), None, TopicRoom);
            rooms[2] == rooms[3]
  {
    TopicRoomsUndefined("1", [1, 2], None);
  }

  /** Naming the room by the id itself, each matched topic gets its own
      room, from which the id can be read back. */
  lemma TopicRoomsById(userId: string, ids: seq<int>, contribution: Option<int>)
    ensures var rooms := Rooms(userId, Numbers(ids), contribution, TopicRoomById);
            && (forall j | 2 <= j < 2 + |ids| :: rooms[j] == "topic:" + IntToString(ids[j - 2])
                                              && ParseInt(rooms[j][|"topic:"|..]) == Some(ids[j - 2]))
            && (forall j, k | 2 <= j < 2 + |ids| && 2 <= k < 2 + |ids| && ids[j - 2] != ids[k - 2] :: rooms[j] != rooms[k])
  {
    var rooms := Rooms(userId, Numbers(ids), contribution, TopicRoomById);
    forall j | 2 <= j < 2 + |ids|
      ensures rooms[j] == "topic:" + IntToString(ids[j - 2])
      ensures ParseInt(rooms[j][|"topic:"|..]) == Some(ids[j - 2])
    {
      assert rooms[j] == "topic:" + IntToString(ids[j - 2]);
      assert rooms[j][|"topic:"|..] == IntToString(ids[j - 2]);
      ParseIntToString(ids[j - 2]);
    }
    forall j, k | 2 <= j < 2 + |ids| && 2 <= k < 2 + |ids| && ids[j - 2] != ids[k - 2]
      ensures rooms[j] != rooms[k]
    {
      assert ParseInt(rooms[j][|"topic:"|..]) != ParseInt(rooms[k][|"topic:"|..]);
    }
  }

  // ---------------------------------------------------------------------
  // The per-tweet pipeline

  /** What `tweetHandler` does, in order. */
  datatype Event =
    | Inserted(tweet: Tweet)
    | TopicsProcessed
    | ContributionProcessed
    | Emitted(room: string)
    | ErrorLogged

  function Emits(rooms: seq<string>): (r: seq<Event>)
    ensures |r| == |rooms|
    ensures forall i | 0 <= i < |r| :: r[i] == Emitted(rooms[i])
  {
    seq(|rooms|, i requires 0 <= i < |rooms| => Emitted(rooms[i]))
  }

  /** `tweetHandler(raw)`, given whether the insert succeeds and what the
      two processors settle to: the insert comes first; only a stored tweet
      is processed; the broadcast needs both processors to resolve; any
      failure is logged once and nothing is thrown. */
  function HandleTweet(raw: Transform.RawTweet, inserted: bool, topics: Settled<seq<TopicResult>>,
                       contribution: Settled<Option<int>>, room: TopicResult -> string): seq<Event>
  {
    var t := Transform.Transform(raw);
    if !inserted then [ErrorLogged]
    else
      [Inserted(t), TopicsProcessed, ContributionProcessed]
      + if topics.Resolved? && contribution.Resolved?
        then Emits(Rooms(t.userId, topics.value, contribution.value, room))
        else [ErrorLogged]
  }

  /** A tweet is broadcast only once stored and classified, first to the
      timeline and then to its author's room; otherwise exactly one error
      is logged and nothing is emitted. */
  lemma HandleTweetOrder(raw: Transform.RawTweet, inserted: bool, topics: Settled<seq<TopicResult>>,
                         contribution: Settled<Option<int>>, room: TopicResult -> string)
    ensures var ev := HandleTweet(raw, inserted, topics, contribution, room);
            var emitted := exists i | 0 <= i < |ev| :: ev[i].Emitted?;
            && (emitted <==> inserted && topics.Resolved? && contribution.Resolved?)
            && (emitted ==> ev[..5] == [Inserted(Transform.Transform(raw)), TopicsProcessed, ContributionProcessed,
                                         Emitted("timeline"), Emitted("handle:" + raw.user.idStr)])
            && (!emitted <==> ErrorLogged in ev)
            && (!inserted ==> ev == [ErrorLogged])
  {
    var ev := HandleTweet(raw, inserted, topics, contribution, room);
    if inserted && topics.Resolved? && contribution.Resolved? {
      var rooms := Rooms(Transform.Transform(raw).userId, topics.value, contribution.value, room);
      assert ev == [Inserted(Transform.Transform(raw)), TopicsProcessed, ContributionProcessed] + Emits(rooms);
      assert ev[3] == Emitted(rooms[0]);
      assert ev[4] == Emitted(rooms[1]);
      assert forall i | 0 <= i < |ev| :: ev[i] != ErrorLogged;
    } else if inserted {
      assert ev == [Inserted(Transform.Transform(raw)), TopicsProcessed, ContributionProcessed, ErrorLogged];
    }
  }
}
