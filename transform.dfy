/** The mapping from a tweet as the Twitter streaming API delivers it to
    the internal tweet of `Records`: server/services/twitter/transform.js,
    repeated word for word as `internals.transform` in
    server/services/twitter/index.js. */
module Transform {
  import opened Js
  import opened Records

  /** The fields of the payload's `user` object the mapping reads. */
  datatype RawUser = RawUser(
    idStr: string,
    name: string,
    screenName: string,
    location: Option<string>,
    url: Option<string>,
    description: Option<string>,
    verified: bool)

  /** A user mention of the payload: the three fields kept, and all the
      others (`id`, `indices`, …) with their JSON text. */
  datatype RawMention = RawMention(idStr: string, name: string, screenName: string, extra: map<string, string>)

  /** The payload's `entities`: its `user_mentions` list, which may be
      missing, and every other key. */
  datatype RawEntities = RawEntities(userMentions: Option<seq<RawMention>>, others: map<string, string>)

  datatype RawTweet = RawTweet(
    idStr: string,
    text: string,
    lang: string,
    user: RawUser,
    favorited: bool,
    retweeted: bool,
    entities: RawEntities,
    extendedEntities: Option<map<string, string>>,
    inReplyToStatusIdStr: Option<string>,
    inReplyToUserIdStr: Option<string>,
    inReplyToScreenName: Option<string>)

  const ProfilePrefix: string := "https://twitter.com/"
  const ProfileInfix: string := "/profile_image?size="

  /** `https://twitter.com/${screen_name}/profile_image?size=${size}`. */
  function ProfileImageUrl(screenName: string, size: string): string
  {
    ProfilePrefix + screenName + ProfileInfix + size
  }

  /** The screen name a profile image URL of the given size was built from,
      if it is one. */
  function ScreenNameOfUrl(url: string, size: string): Option<string>
  {
    var n := |url| - |ProfilePrefix| - |ProfileInfix| - |size|;
    if n >= 0 && url[..|ProfilePrefix|] == ProfilePrefix && url[|url| - |size| - |ProfileInfix|..] == ProfileInfix + size
    then Some(url[|ProfilePrefix|..|ProfilePrefix| + n])
    else None
  }

  /** The screen name can be read back from the URL built from it. */
  lemma ProfileUrlRoundTrip(screenName: string, size: string)
    ensures ScreenNameOfUrl(ProfileImageUrl(screenName, size), size) == Some(screenName)
  {
    var url := ProfileImageUrl(screenName, size);
    assert url == ProfilePrefix + (screenName + (ProfileInfix + size));
    assert url[..|ProfilePrefix|] == ProfilePrefix;
    assert url[|url| - |size| - |ProfileInfix|..] == ProfileInfix + size;
    assert url[|ProfilePrefix|..|ProfilePrefix| + |screenName|] == screenName;
  }

  /** Distinct screen names get distinct profile image URLs. */
  lemma ProfileUrlInjective(a: string, b: string, size: string)
    ensures ProfileImageUrl(a, size) == ProfileImageUrl(b, size) ==> a == b
  {
    ProfileUrlRoundTrip(a, size);
    ProfileUrlRoundTrip(b, size);
  }

  /** `{ id: user.id_str, name: user.name, screen_name: user.screen_name }`. */
  function MentionOf(m: RawMention): Mention
  {
    Mention(m.idStr, m.name, m.screenName)
  }

  /** `_.map(tweet.entities.user_mentions, …)`: a missing list maps to `[]`. */
  function Mentions(ms: Option<seq<RawMention>>): (r: seq<Mention>)
    ensures ms.None? ==> r == []
    ensures ms.Some? ==> |r| == |ms.value| && forall i | 0 <= i < |r| :: r[i] == MentionOf(ms.value[i])
  {
    if ms.None? then [] else seq(|ms.value|, i requires 0 <= i < |ms.value| => MentionOf(ms.value[i]))
  }

  /** The internal tweet. `created_at` and the user's `created_at` are not
      modelled; the contribution column starts empty. */
  function Transform(raw: RawTweet): Tweet
  {
    var u := raw.user;
    Tweet(
      raw.idStr, raw.text, raw.lang, u.idStr,
      User(u.idStr, u.name, u.screenName, u.location, u.url, u.description,
           ProfileImageUrl(u.screenName, "original"), ProfileImageUrl(u.screenName, "normal"), u.verified),
      raw.favorited, raw.retweeted,
      Entities(Mentions(raw.entities.userMentions), raw.entities.others),
      raw.extendedEntities,
      raw.inReplyToStatusIdStr, raw.inReplyToUserIdStr, raw.inReplyToScreenName,
      None)
  }

  /** What the mapping keeps of the payload. */
  datatype Kept = Kept(
    idStr: string, text: string, lang: string,
    userIdStr: string, name: string, screenName: string,
    location: Option<string>, url: Option<string>, description: Option<string>, verified: bool,
    favorited: bool, retweeted: bool,
    mentions: seq<Mention>, otherEntities: map<string, string>,
    extendedEntities: Option<map<string, string>>,
    inReplyToStatusIdStr: Option<string>, inReplyToUserIdStr: Option<string>, inReplyToScreenName: Option<string>)

  function KeptOf(raw: RawTweet): Kept
  {
    var u := raw.user;
    Kept(raw.idStr, raw.text, raw.lang, u.idStr, u.name, u.screenName, u.location, u.url, u.description, u.verified,
         raw.favorited, raw.retweeted, Mentions(raw.entities.userMentions), raw.entities.others,
         raw.extendedEntities, raw.inReplyToStatusIdStr, raw.inReplyToUserIdStr, raw.inReplyToScreenName)
  }

  /** Reads the kept payload back from an internal tweet, the screen name
      out of the profile image URL. */
  function Restore(t: Tweet): Option<Kept>
  {
    match ScreenNameOfUrl(t.user.profileImageUrl, "original")
    case None => None
    case Some(sn) =>
      Some(Kept(t.id, t.text, t.lang, t.userId, t.user.name, sn, t.user.location, t.user.url, t.user.description,
                t.user.verified, t.favorited, t.retweeted, t.entities.userMentions, t.entities.others,
                t.extendedEntities, t.parentId, t.inReplyToUserId, t.inReplyToScreenName))
  }

  /** Nothing the mapping keeps is lost: the payload's ids, texts, flags,
      mentions and reply fields come back out of the internal tweet, and
      the user's id is stored twice. */
  lemma TransformKeeps(raw: RawTweet)
    ensures Restore(Transform(raw)) == Some(KeptOf(raw))
    ensures Transform(raw).userId == Transform(raw).user.id == raw.user.idStr
    ensures Transform(raw).user.profileAvatarUrl == ProfileImageUrl(raw.user.screenName, "normal")
  {
    ProfileUrlRoundTrip(raw.user.screenName, "original");
  }

  /** Mentions are mapped one to one and in order, keeping only the id,
      name and screen name; the payload's other fields of a mention never
      reach the internal tweet. */
  lemma MentionsDropExtra(ms: seq<RawMention>, ns: seq<RawMention>)
    requires |ms| == |ns|
    requires forall i | 0 <= i < |ms| :: ms[i].idStr == ns[i].idStr && ms[i].name == ns[i].name && ms[i].screenName == ns[i].screenName
    ensures Mentions(Some(ms)) == Mentions(Some(ns))
  {
  }
}
