/** The older streaming plugin, server/services/twitter.js: a `stalled`
    flag set by `follow` and cleared by a once-a-second reconnect tick, the
    start-up follow of every stored handle, and the tweet handler that
    stores the payload as it came and then tells every socket. */
module LegacyTwitter {
  import opened Js
  import opened Records
  import Transform

  /** What the stream object is asked to do. `undefined` ids are kept as
      None. */
  datatype StreamCall = StreamFollow(ids: seq<Option<string>>, reconnect: bool) | StreamReconnect

  /** What drives the plugin after start-up: a `follow` call from another
      plugin, or one run of the reconnect tick. */
  datatype Input = FollowIn(ids: seq<Option<string>>) | TickIn

  /** The flag after one input. */
  function StepStalled(stalled: bool, input: Input): bool
  {
    match input
    case FollowIn(_) => true
    case TickIn => false
  }

  /** The stream calls of one input. */
  function StepCalls(stalled: bool, input: Input): seq<StreamCall>
  {
    match input
    case FollowIn(ids) => [StreamFollow(ids, false)]
    case TickIn => if stalled then [StreamReconnect] else []
  }

  /** The flag after a run of inputs. */
  function Stalled(stalled: bool, inputs: seq<Input>): bool
  {
    if inputs == [] then stalled
    else StepStalled(Stalled(stalled, inputs[..|inputs| - 1]), inputs[|inputs| - 1])
  }

  /** The stream calls of a run of inputs. */
  function Calls(stalled: bool, inputs: seq<Input>): seq<StreamCall>
  {
    if inputs == [] then []
    else
      var init := inputs[..|inputs| - 1];
      Calls(stalled, init) + StepCalls(Stalled(stalled, init), inputs[|inputs| - 1])
  }

  /** The plugin's state: the flag and what the stream was asked so far. */
  class Plugin {
    var stalled: bool
    var calls: seq<StreamCall>

    constructor ()
      ensures !stalled && calls == []
    {
      stalled := false;
      calls := [];
    }

    /** `follow(handles)`: the ids go to the stream with no reconnect of
        its own, and the plugin is marked stalled. */
    method Follow(ids: seq<Option<string>>)
      modifies this
      ensures stalled
      ensures calls == old(calls) + [StreamFollow(ids, false)]
    {
      stalled := true;
      calls := calls + [StreamFollow(ids, false)];
    }

    /** One run of `reconnect`: a stalled plugin reconnects the stream
        once and is no longer stalled; otherwise nothing happens. */
    method Tick()
      modifies this
      ensures !stalled
      ensures calls == old(calls) + (if old(stalled) then [StreamReconnect] else [])
    {
      if stalled {
        stalled := false;
        calls := calls + [StreamReconnect];
      }
    }

    /** The plugin over a run of inputs, one tick per `TickIn`. */
    method Drive(inputs: seq<Input>)
      modifies this
      ensures stalled == Stalled(old(stalled), inputs)
      ensures calls == old(calls) + Calls(old(stalled), inputs)
    {
      var i := 0;
      while i < |inputs|
        invariant 0 <= i <= |inputs|
        invariant stalled == Stalled(old(stalled), inputs[..i])
        invariant calls == old(calls) + Calls(old(stalled), inputs[..i])
      {
        assert inputs[..i + 1][..i] == inputs[..i];
        match inputs[i] {
          case FollowIn(ids) => Follow(ids);
          case TickIn => Tick();
        }
        i := i + 1;
      }
      assert inputs[..i] == inputs;
    }

    /** Start-up, as written: follow the `uid` column of every stored
        handle (`undefined` where a row has none, see
        StartupFollowsUndefined), then start the tick loop, whose first
        run reconnects. */
    method Startup(rows: seq<Row>)
      modifies this
      ensures !stalled
      ensures calls == old(calls) + [StreamFollow(StartupIds(rows), false), StreamReconnect]
    {
      Follow(StartupIds(rows));
      Tick();
    }
  }

  function Reconnects(calls: seq<StreamCall>): nat
  {
    if calls == [] then 0
    else Reconnects(calls[..|calls| - 1]) + (if calls[|calls| - 1].StreamReconnect? then 1 else 0)
  }

  lemma {:induction false} ReconnectsAppend(a: seq<StreamCall>, b: seq<StreamCall>)
    ensures Reconnects(a + b) == Reconnects(a) + Reconnects(b)
    decreases |b|
  {
    if b == [] {
      assert a + b == a;
    } else {
      assert (a + b)[..|a + b| - 1] == a + b[..|b| - 1];
      ReconnectsAppend(a, b[..|b| - 1]);
    }
  }

  /** The inputs `follow(ids_1) … follow(ids_n)`. */
  function Follows(idss: seq<seq<Option<string>>>): (r: seq<Input>)
    ensures |r| == |idss|
    ensures forall i | 0 <= i < |r| :: r[i] == FollowIn(idss[i])
  {
    seq(|idss|, i requires 0 <= i < |idss| => FollowIn(idss[i]))
  }

  /** Follows pass straight to the stream and leave the plugin stalled. */
  lemma {:induction false} FollowsCalls(stalled: bool, idss: seq<seq<Option<string>>>)
    ensures Calls(stalled, Follows(idss)) == seq(|idss|, i requires 0 <= i < |idss| => StreamFollow(idss[i], false))
    ensures idss != [] ==> Stalled(stalled, Follows(idss))
    ensures idss == [] ==> Stalled(stalled, Follows(idss)) == stalled
    decreases |idss|
  {
    if idss != [] {
      var n := |idss| - 1;
      assert Follows(idss)[..n] == Follows(idss[..n]);
      FollowsCalls(stalled, idss[..n]);
    }
  }

  /** Any number of follows, at least one, between two ticks causes
      exactly one reconnect, at the second tick, whatever the flag was. */
  lemma FollowsThenTick(stalled: bool, idss: seq<seq<Option<string>>>)
    requires idss != []
    ensures var calls := Calls(stalled, Follows(idss) + [TickIn]);
            && calls == seq(|idss|, i requires 0 <= i < |idss| => StreamFollow(idss[i], false)) + [StreamReconnect]
            && Reconnects(calls) == 1
            && !Stalled(stalled, Follows(idss) + [TickIn])
  {
    var ins := Follows(idss) + [TickIn];
    assert ins[..|ins| - 1] == Follows(idss);
    FollowsCalls(stalled, idss);
    var fs := seq(|idss|, i requires 0 <= i < |idss| => StreamFollow(idss[i], false));
    NoReconnects(fs);
    ReconnectsAppend(fs, [StreamReconnect]);
    assert Reconnects([StreamReconnect]) == Reconnects([]) + 1;
  }

  lemma {:induction false} NoReconnects(calls: seq<StreamCall>)
    requires forall i | 0 <= i < |calls| :: calls[i].StreamFollow?
    ensures Reconnects(calls) == 0
  {
    if calls != [] {
      NoReconnects(calls[..|calls| - 1]);
    }
  }

  /** A tick of a plugin that is not stalled does nothing to the stream. */
  lemma IdleTick()
    ensures Calls(false, [TickIn]) == [] && !Stalled(false, [TickIn])
  {
    assert [TickIn][..0] == [];
  }

  function FollowCount(inputs: seq<Input>): nat
  {
    if inputs == [] then 0
    else FollowCount(inputs[..|inputs| - 1]) + (if inputs[|inputs| - 1].FollowIn? then 1 else 0)
  }

  function TickCount(inputs: seq<Input>): nat
  {
    if inputs == [] then 0
    else TickCount(inputs[..|inputs| - 1]) + (if inputs[|inputs| - 1].TickIn? then 1 else 0)
  }

  /** Reconnects are batched: there are never more of them than ticks, nor
      more than follows (plus one for a plugin already stalled); a stalled
      plugin has a follow not yet answered by a reconnect. */
  lemma {:induction false} ReconnectsBounded(stalled: bool, inputs: seq<Input>)
    ensures Reconnects(Calls(stalled, inputs)) <= TickCount(inputs)
    ensures Reconnects(Calls(stalled, inputs)) + (if Stalled(stalled, inputs) then 1 else 0)
            <= FollowCount(inputs) + (if stalled then 1 else 0)
  {
    if inputs != [] {
      var init := inputs[..|inputs| - 1];
      ReconnectsBounded(stalled, init);
      var s := Stalled(stalled, init);
      var step := StepCalls(s, inputs[|inputs| - 1]);
      ReconnectsAppend(Calls(stalled, init), step);
      if step == [StreamReconnect] {
        assert Reconnects(step) == Reconnects([]) + 1;
      } else if step != [] {
        assert step[..0] == [];
        assert Reconnects(step) == 0;
      }
    }
  }

  // ---------------------------------------------------------------------
  // Start-up ids

  /** A stored handle row, column name to value. */
  type Row = map<string, string>

  /** `handles.pluck(column)`: `undefined` for a row without the column. */
  function Pluck(rows: seq<Row>, column: string): (r: seq<Option<string>>)
    ensures |r| == |rows|
    ensures forall i | 0 <= i < |r| :: r[i] == if column in rows[i] then Some(rows[i][column]) else None
  {
    seq(|rows|, i requires 0 <= i < |rows| => if column in rows[i] then Some(rows[i][column]) else None)
  }

  /** The ids start-up follows, as written: the `uid` column. */
  function StartupIds(rows: seq<Row>): seq<Option<string>>
  {
    Pluck(rows, "uid")
  }

  /** The ids start-up follows when plucked by the handle's Twitter id,
      the `id` column since the migration moved `uid` into it. */
  function StartupIdsById(rows: seq<Row>): seq<Option<string>>
  {
    Pluck(rows, "id")
  }

  /** Rows of the migrated table have no `uid`: start-up then follows one
      `undefined` per handle. */
  lemma StartupFollowsUndefined(rows: seq<Row>)
    requires forall i | 0 <= i < |rows| :: "uid" !in rows[i]
    ensures StartupIds(rows) == seq(|rows|, i => None)
  {
  }

  /** A concrete migrated table: its one handle is not followed. */
  lemma StartupMissesHandle()
    ensures StartupIds([map["id" := "12", "username" := "ask"]]) == [None]
    ensures StartupIdsById([map["id" := "12", "username" := "ask"]]) == [Some("12")]
  {
    var rows := [map["id" := "12", "username" := "ask"]];
    assert "uid" !in rows[0];
  }

  /** By `id`, start-up follows every stored handle's Twitter id, in order,
      and nothing else. */
  lemma StartupFollowsEveryHandle(rows: seq<Row>)
    requires forall i | 0 <= i < |rows| :: "id" in rows[i]
    ensures |StartupIdsById(rows)| == |rows|
    ensures forall i | 0 <= i < |rows| :: StartupIdsById(rows)[i] == Some(rows[i]["id"])
  {
  }

  // ---------------------------------------------------------------------
  // The tweet handler

  /** The user as this handler stores it: no profile image URLs. */
  datatype LegacyUser = LegacyUser(
    id: string, name: string, screenName: string,
    location: Option<string>, url: Option<string>, description: Option<string>, verified: bool)

  /** The stored row: like `Records.Tweet` but with the payload's
      `entities` kept whole and no contribution column. */
  datatype LegacyTweet = LegacyTweet(
    id: string, text: string, lang: string, userId: string, user: LegacyUser,
    favorited: bool, retweeted: bool,
    entities: Transform.RawEntities, extendedEntities: Option<map<string, string>>,
    parentId: Option<string>, inReplyToUserId: Option<string>, inReplyToScreenName: Option<string>)

  function LegacyRecord(raw: Transform.RawTweet): LegacyTweet
  {
    var u := raw.user;
    LegacyTweet(raw.idStr, raw.text, raw.lang, u.idStr,
                LegacyUser(u.idStr, u.name, u.screenName, u.location, u.url, u.description, u.verified),
                raw.favorited, raw.retweeted, raw.entities, raw.extendedEntities,
                raw.inReplyToStatusIdStr, raw.inReplyToUserIdStr, raw.inReplyToScreenName)
  }

  /** This handler stores what the newer transform stores, except that the
      mentions keep every field of the payload and there are no profile
      URLs: mapping its entities as the transform does gives the
      transform's. */
  lemma LegacyRecordAgrees(raw: Transform.RawTweet)
    ensures var rec := LegacyRecord(raw);
            var t := Transform.Transform(raw);
            && rec.entities == raw.entities
            && t.id == rec.id && t.text == rec.text && t.lang == rec.lang && t.userId == rec.userId
            && t.user.id == rec.user.id && t.user.name == rec.user.name && t.user.screenName == rec.user.screenName
            && t.favorited == rec.favorited && t.retweeted == rec.retweeted
            && t.entities == Entities(Transform.Mentions(rec.entities.userMentions), rec.entities.others)
            && t.parentId == rec.parentId && t.inReplyToUserId == rec.inReplyToUserId
  {
  }

  datatype Event = Stored(tweet: LegacyTweet) | EmittedToAll(tweet: LegacyTweet) | ErrorLogged

  /** `tweetHandler(tweet)`, given whether the insert succeeds: the saved
      tweet is sent to every socket only once stored; a failed insert is
      logged and nothing is sent. */
  function HandleTweet(raw: Transform.RawTweet, inserted: bool): (r: seq<Event>)
    ensures inserted <==> (exists i | 0 <= i < |r| :: r[i].EmittedToAll?)
    ensures inserted ==> r == [Stored(LegacyRecord(raw)), EmittedToAll(LegacyRecord(raw))]
    ensures !inserted ==> r == [ErrorLogged]
  {
    if inserted then
      var rec := LegacyRecord(raw);
      assert [Stored(rec), EmittedToAll(rec)][1].EmittedToAll?;
      [Stored(rec), EmittedToAll(rec)]
    else [ErrorLogged]
  }
}
