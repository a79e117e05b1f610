/** The handle rules of server/modules/handle.js: which camps have a
    Twitter list, which list members become handles, how a Twitter profile
    becomes a handle row, when list membership is written to Twitter and
    which Twitter errors are tolerated, and the broker exclusion of handle
    listings. */
module HandleSync {
  import opened Js
  import opened Records
  import Transform

  const YouthListKey: string := "twitter.list.youth"
  const PolicyMakerListKey: string := "twitter.list.policymakers"

  /** `campSettingsMap[campId]`: the setting naming a camp's Twitter list.
      The broker camp has none. */
  function CampListKey(camp: int): (r: Option<string>)
    ensures r.Some? <==> camp == Youth || camp == PolicyMaker
  {
    if camp == Youth then Some(YouthListKey)
    else if camp == PolicyMaker then Some(PolicyMakerListKey)
    else None
  }

  /** The two camps with a list use different settings, each the one the
      sync reads for that camp. */
  lemma CampListKeysDistinct()
    ensures CampListKey(Youth) == Some(YouthListKey) && CampListKey(PolicyMaker) == Some(PolicyMakerListKey)
    ensures YouthListKey != PolicyMakerListKey
    ensures CampListKey(Broker) == None
  {
  }

  /** The fields of a Twitter profile (a list member, or the account's own
      credentials) the module reads. */
  datatype Profile = Profile(idStr: string, screenName: string, name: string, description: Option<string>)

  /** The `profile` column of a handle. */
  datatype HandleProfile = HandleProfile(image: string, description: Option<string>)

  /** A handle row about to be inserted, column name to value. */
  type HandleData = map<string, Value<HandleProfile>>

  /** `createFromTwitterProfile(profile, campId)`, the row passed to
      `create`. */
  function FromProfile(p: Profile, camp: int): HandleData
  {
    map[
      "id" := Str(p.idStr),
      "username" := Str(p.screenName),
      "name" := Str(p.name),
      "profile" := Obj(HandleProfile(Transform.ProfileImageUrl(p.screenName, "original"), p.description)),
      "camp_id" := Num(camp)]
  }

  /** The row keeps the profile's id, screen name and name, its image is
      the same URL the tweet transform gives the author, the screen name
      can be read back from it, and the camp is the one given. */
  lemma FromProfileKeeps(p: Profile, camp: int, raw: Transform.RawTweet)
    requires raw.user.idStr == p.idStr && raw.user.screenName == p.screenName
    ensures var row := FromProfile(p, camp);
            && row["id"] == Str(p.idStr) && row["username"] == Str(p.screenName) && row["camp_id"] == Num(camp)
            && row["profile"].o.image == Transform.Transform(raw).user.profileImageUrl
            && Transform.ScreenNameOfUrl(row["profile"].o.image, "original") == Some(p.screenName)
  {
    Transform.ProfileUrlRoundTrip(p.screenName, "original");
  }

  /** `create(data)` once the Klout identity is known: `klout_id` is the
      identity's id unless the data already has one. */
  function Create(data: HandleData, kloutId: Value<HandleProfile>): (r: HandleData)
    ensures "klout_id" in r
    ensures r["klout_id"] == if "klout_id" in data then data["klout_id"] else kloutId
    ensures forall k | k != "klout_id" :: (k in r <==> k in data) && (k in r ==> r[k] == data[k])
  {
    map["klout_id" := kloutId] + data
  }

  /** A handle made from a profile always takes the Klout id. */
  lemma CreateFromProfileTakesKlout(p: Profile, camp: int, kloutId: Value<HandleProfile>)
    ensures Create(FromProfile(p, camp), kloutId)["klout_id"] == kloutId
  {
  }

  /** The members of a list that are not stored handles yet, in list order. */
  function NewMembers(members: seq<Profile>, stored: set<string>): (r: seq<Profile>)
    ensures forall m :: m in r <==> m in members && m.idStr !in stored
    ensures |r| <= |members|
  {
    if members == [] then []
    else
      var rest := NewMembers(members[1..], stored);
      if members[0].idStr in stored then rest else [members[0]] + rest
  }

  /** `syncList(id, camp)`: the rows created for a list with the given
      members, when `stored` is the set of stored handle ids. */
  function SyncList(members: seq<Profile>, stored: set<string>, camp: int): (r: seq<HandleData>)
    ensures |r| == |NewMembers(members, stored)|
    ensures forall i | 0 <= i < |r| :: r[i] == FromProfile(NewMembers(members, stored)[i], camp)
  {
    var added := NewMembers(members, stored);
    seq(|added|, i requires 0 <= i < |added| => FromProfile(added[i], camp))
  }

  /** Exactly the members not yet stored get a handle, each with the
      list's camp, and no stored handle is created again. */
  lemma SyncListCreates(members: seq<Profile>, stored: set<string>, camp: int)
    ensures forall m | m in members && m.idStr !in stored :: FromProfile(m, camp) in SyncList(members, stored, camp)
    ensures forall row: HandleData | row in SyncList(members, stored, camp) ::
              row["camp_id"] == Num(camp) && row["id"].Str? && row["id"].s !in stored
              && exists m | m in members :: row == FromProfile(m, camp)
  {
    var added := NewMembers(members, stored);
    var r := SyncList(members, stored, camp);
    forall m | m in members && m.idStr !in stored
      ensures FromProfile(m, camp) in r
    {
      var i :| 0 <= i < |added| && added[i] == m;
      assert r[i] == FromProfile(m, camp);
    }
  }

  /** `syncHandles()` with the two list settings read: the youth list is
      synced when its setting is truthy, then the policy-maker list when
      its setting is truthy. Each job is the list id and the camp. */
  function SyncJobs(settings: map<string, Value<()>>): (r: seq<(Value<()>, int)>)
    ensures (exists i | 0 <= i < |r| :: r[i].1 == Youth) <==> YouthListKey in settings && Truthy(settings[YouthListKey])
    ensures (exists i | 0 <= i < |r| :: r[i].1 == PolicyMaker) <==> PolicyMakerListKey in settings && Truthy(settings[PolicyMakerListKey])
    ensures forall i | 0 <= i < |r| :: r[i].1 != Broker && CampListKey(r[i].1).Some?
                                       && r[i].0 == settings[CampListKey(r[i].1).value]
  {
    var youth := Setting(settings, YouthListKey);
    var pm := Setting(settings, PolicyMakerListKey);
    var jobs := (if Truthy(youth) then [(youth, Youth)] else []) + (if Truthy(pm) then [(pm, PolicyMaker)] else []);
    assert Truthy(youth) ==> jobs[0].1 == Youth;
    assert Truthy(pm) ==> jobs[|jobs| - 1].1 == PolicyMaker;
    jobs
  }

  /** `settings[key]`, `undefined` when the setting is absent. */
  function Setting(settings: map<string, Value<()>>, key: string): Value<()>
  {
    if key in settings then settings[key] else Undefined
  }

  /** The Twitter call `addToTwitterList` / `removeFromTwitterList` makes
      for a handle of the given camp: the list id and the user id, or none
      when the camp has no list or its list setting is falsy. */
  function ListCall(camp: int, settings: map<string, Value<()>>, handleId: string): (r: Option<(Value<()>, string)>)
    ensures r.Some? <==> CampListKey(camp).Some? && Truthy(Setting(settings, CampListKey(camp).value))
    ensures r.Some? ==> r.value == (Setting(settings, CampListKey(camp).value), handleId)
  {
    match CampListKey(camp)
    case None => None
    case Some(key) =>
      var listId := Setting(settings, key);
      if Truthy(listId) then Some((listId, handleId)) else None
  }

  /** A broker handle never touches a list. */
  lemma BrokerHasNoList(settings: map<string, Value<()>>, handleId: string)
    ensures ListCall(Broker, settings, handleId) == None
  {
  }

  /** How the list call ends. */
  datatype CallOutcome = Succeeded | TwitterError(code: int) | OtherError

  /** `addToTwitterList(handle)`: resolves when no call is made or the
      call succeeds; any error of the call is passed on. */
  function AddToTwitterList(camp: int, settings: map<string, Value<()>>, handleId: string, outcome: CallOutcome): (r: Settled<()>)
    ensures r.Resolved? <==> ListCall(camp, settings, handleId).None? || outcome.Succeeded?
  {
    if ListCall(camp, settings, handleId).None? || outcome.Succeeded? then Resolved(()) else Rejected
  }

  /** `removeFromTwitterList(handle)`: like adding, except that Twitter's
      error 110 (the user is not on the list) counts as done. Other Twitter
      error codes and errors of other kinds are passed on. */
  function RemoveFromTwitterList(camp: int, settings: map<string, Value<()>>, handleId: string, outcome: CallOutcome): Settled<()>
  {
    if ListCall(camp, settings, handleId).None? then Resolved(())
    else match outcome
         case Succeeded => Resolved(())
         case TwitterError(code) => if code != 110 then Rejected else Resolved(())
         case OtherError => Rejected
  }

  lemma RemoveTolerates110(camp: int, settings: map<string, Value<()>>, handleId: string, outcome: CallOutcome)
    ensures RemoveFromTwitterList(camp, settings, handleId, outcome).Resolved? <==>
            ListCall(camp, settings, handleId).None? || outcome.Succeeded? || outcome == TwitterError(110)
    ensures outcome != TwitterError(110) ==>
            RemoveFromTwitterList(camp, settings, handleId, outcome) == AddToTwitterList(camp, settings, handleId, outcome)
  {
  }

  /** The camp filter of a handle listing (`prepareQuery`): the asked-for
      camp when `query.camp` is truthy, otherwise every camp but the
      broker's. A handle's camp is an integer here; in SQL a NULL
      `camp_id` fails `camp_id != 3` as well, and such rows are not
      modelled. */
  predicate Listed(queryCamp: Value<()>, handleCamp: int)
  {
    if Truthy(queryCamp) then queryCamp == Num(handleCamp) else handleCamp != Broker
  }

  /** Without a camp filter, no broker handle is listed and every other
      handle is; a broker handle is only listed when the broker camp is
      asked for. */
  lemma BrokerExcluded(queryCamp: Value<()>, handleCamp: int)
    ensures !Truthy(queryCamp) ==> (Listed(queryCamp, handleCamp) <==> handleCamp != Broker)
    ensures Listed(queryCamp, Broker) ==> queryCamp == Num(Broker)
    ensures Truthy(queryCamp) && Listed(queryCamp, handleCamp) ==> queryCamp == Num(handleCamp)
  {
  }

  /** `fetchBrokerHandle()`: the stored broker handle if there is one;
      otherwise the handle `create` saves from the account's own profile
      in the broker camp, with the Klout id of its username, whose id is
      then followed. */
  function BrokerHandle(stored: Option<HandleData>, own: Profile, kloutId: Value<HandleProfile>): (r: (HandleData, seq<string>))
    ensures stored.Some? ==> r == (stored.value, [])
    ensures stored.None? ==> "camp_id" in r.0 && r.0["camp_id"] == Num(Broker) && "id" in r.0 && r.0["id"] == Str(own.idStr) && r.1 == [own.idStr]
    ensures stored.None? ==> "klout_id" in r.0 && r.0["klout_id"] == kloutId
  {
    match stored
    case Some(h) => (h, [])
    case None =>
      CreateFromProfileTakesKlout(own, Broker, kloutId);
      (Create(FromProfile(own, Broker), kloutId), [own.idStr])
  }
}
