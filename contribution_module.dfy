/** The contribution detector of server/modules/contribution/index.js: a
    chain of fifteen rules, run by the evaluator of module Evaluator, that
    links a tweet to the contribution its parent belongs to, or starts a
    new contribution when a handle of one camp mentions handles of the two
    other camps, and then counts the tweet in that contribution.

    The database is read through `Tables`; the registry of known handles
    (module CampRegistry) is read as it stands during the run. */
module ContributionModule {
  import opened Js
  import opened Records
  import opened Evaluator
  import opened CampRegistry

  /** A mention with the camp the registry gives its id (`undefined` when
      the id is not a known handle). */
  datatype TaggedMention = TaggedMention(camp: Option<int>, mention: Mention)

  /** The objects the rules put in the context. A handle is the author's
      user object with the author's `camp` added. */
  datatype Item =
    | TweetObj(tweet: Tweet)
    | ContributionObj(contribution: Contribution)
    | HandleObj(camp: Option<int>, user: User)
    | MentionsObj(mentions: seq<TaggedMention>)

  type Ctx = Fields<Item>

  // The rules' descriptions, as `describe()` returns them.
  const FetchParentRule: string := "Check if tweet has parent and fetch it"
  const FetchContributionRule: string := "Check if tweet is reply to contribution and fetch it"
  const AuthorHandleRule: string := "Check if tweet author is handle"
  const ExtractMentionsRule: string := "If not part of existing contribution, extract mentions"
  const AuthorBrokerRule: string := "Check if tweet author is Broker"
  const AuthorPolicyMakerRule: string := "Check if tweet author is Policy Maker"
  const AuthorYouthRule: string := "Check if tweet author is Youth"
  const MentionsBrokerRule: string := "Check if tweet mentions Broker"
  const MentionsPolicyMakerRule: string := "Check if tweet mentions any Policy Maker handles"
  const MentionsYouthRule: string := "Check if tweet mentions any Youth handles"
  const BrokerTriadRule: string := "If tweet author is broker and it mentions pm and youth, it is a contribution"
  const PolicyMakerTriadRule: string := "If tweet author is policy maker and it mentions broker and youth, it is a contribution"
  const YouthTriadRule: string := "If tweet author is youth and it mentions broker and policy maker, it is a contribution"
  const CreateRule: string := "Check if tweet is starts new contribution and create one"
  const UpdateRule: string := "If tweet is part of contribution, update contribution"

  /** The rows the rules fetch, and the id the database gives the next
      contribution it saves. */
  datatype Tables = Tables(tweets: map<string, Tweet>, contributions: map<int, Contribution>, nextId: int)

  /** What the plugin's `register` closes its rules over: the handle
      registry and the database. Each group of rules below is built from
      it, whether or not its rules read either. */
  datatype Env = Env(store: Store, db: Tables)

  /** `engine.run({ tweet })`. */
  function Start(t: Tweet): Ctx
  {
    map["tweet" := Obj(TweetObj(t))]
  }

  /** A `fetch()` of a related row: the row, or `null` when there is none. */
  function FetchTweet(db: Tables, id: Option<string>): Value<Item>
  {
    if id.Some? && id.value in db.tweets then Obj(TweetObj(db.tweets[id.value])) else Null
  }

  function FetchContribution(db: Tables, id: Option<int>): Value<Item>
  {
    if id.Some? && id.value in db.contributions then Obj(ContributionObj(db.contributions[id.value])) else Null
  }

  // ---------------------------------------------------------------------
  // The rules, in the order they are added

  /** `({ tweet }) => tweet.has('parent_id')` */
  function HasParent(ctx: Ctx): Settled<Value<Item>>
  {
    match Get<Item>(ctx, "tweet")
    case Obj(TweetObj(t)) => Resolved(Bool(t.parentId.Some?))
    case _ => Rejected
  }

  function FetchParent(db: Tables, ctx: Ctx): Settled<Option<Ctx>>
  {
    match Get<Item>(ctx, "tweet")
    case Obj(TweetObj(t)) => Resolved(Some(map["parent" := FetchTweet(db, t.parentId)]))
    case _ => Rejected
  }

  function ParentSpec(db: Tables): RuleSpec<Item>
  {
    RuleSpec(FetchParentRule, [Fn(HasParent)], ctx => FetchParent(db, ctx))
  }

  /** `({ parent }) => parent.has('contribution_id')`: throws when there
      is no parent, or when the parent was not found (`null`). */
  function ParentHasContribution(ctx: Ctx): Settled<Value<Item>>
  {
    match Get<Item>(ctx, "parent")
    case Obj(TweetObj(p)) => Resolved(Bool(p.contributionId.Some?))
    case _ => Rejected
  }

  function FetchParentContribution(db: Tables, ctx: Ctx): Settled<Option<Ctx>>
  {
    match Get<Item>(ctx, "parent")
    case Obj(TweetObj(p)) => Resolved(Some(map["contribution" := FetchContribution(db, p.contributionId)]))
    case _ => Rejected
  }

  function ContributionSpec(db: Tables): RuleSpec<Item>
  {
    RuleSpec(FetchContributionRule, [Fn(ParentHasContribution)],
             ctx => FetchParentContribution(db, ctx))
  }

  /** `({ tweet }) => Handles.has(tweet.get('user_id'))` */
  function AuthorIsHandle(store: Store, ctx: Ctx): Settled<Value<Item>>
  {
    match Get<Item>(ctx, "tweet")
    case Obj(TweetObj(t)) => Resolved(Bool(Known(store, t.userId)))
    case _ => Rejected
  }

  /** `handle: Object.assign({ camp: Handles.camp(user_id) }, tweet.get('user'))` */
  function AuthorHandle(store: Store, ctx: Ctx): Settled<Option<Ctx>>
  {
    match Get<Item>(ctx, "tweet")
    case Obj(TweetObj(t)) => Resolved(Some(map["handle" := Obj(HandleObj(CampOf(store, t.userId), t.user))]))
    case _ => Rejected
  }

  function HandleSpec(store: Store): RuleSpec<Item>
  {
    RuleSpec(AuthorHandleRule, [Fn(ctx => AuthorIsHandle(store, ctx))], ctx => AuthorHandle(store, ctx))
  }

  /** Every mention of the tweet, in order, tagged with its camp. */
  function Tagged(store: Store, ms: seq<Mention>): (r: seq<TaggedMention>)
    ensures |r| == |ms|
    ensures forall i | 0 <= i < |ms| :: r[i].mention == ms[i] && r[i].camp == CampOf(store, ms[i].id)
  {
    seq(|ms|, i requires 0 <= i < |ms| => TaggedMention(CampOf(store, ms[i].id), ms[i]))
  }

  function ExtractMentions(store: Store, ctx: Ctx): Settled<Option<Ctx>>
  {
    match Get<Item>(ctx, "tweet")
    case Obj(TweetObj(t)) => Resolved(Some(map["mentions" := Obj(MentionsObj(Tagged(store, t.entities.userMentions)))]))
    case _ => Rejected
  }

  function MentionsSpec(store: Store): RuleSpec<Item>
  {
    RuleSpec(ExtractMentionsRule, [Key("!contribution")],
             ctx => ExtractMentions(store, ctx))
  }

  /** `({ handle: { camp } }) => ({ [flag]: camp === X })`: destructuring
      an absent or null handle throws. */
  function AuthorFlag(flag: string, camp: int, ctx: Ctx): Settled<Option<Ctx>>
  {
    match Get<Item>(ctx, "handle")
    case Undefined => Rejected
    case Null => Rejected
    case Obj(HandleObj(c, _)) => Resolved(Some(map[flag := Bool(c == Some(camp))]))
    case _ => Resolved(Some(map[flag := Bool(false)]))
  }

  function AuthorFlagSpec(description: string, flag: string, camp: int): (r: RuleSpec<Item>)
    ensures NewRule(r).tests == [IsTruthy("handle.camp")]
  {
    RuleSpec(description, [Key("handle.camp")], ctx => AuthorFlag(flag, camp, ctx))
  }

  /** The three author rules as written: each is gated on the context
      property literally named "handle.camp". */
  function AuthorFlagSpecs(env: Env): (r: seq<RuleSpec<Item>>)
    ensures ConditionsParse(r)
  {
    [ AuthorFlagSpec(AuthorBrokerRule, "authorBroker", Broker),
      AuthorFlagSpec(AuthorPolicyMakerRule, "authorPolicyMaker", PolicyMaker),
      AuthorFlagSpec(AuthorYouthRule, "authorYouth", Youth) ]
  }

  /** `!!mentions.find(({ camp }) => camp === X)` */
  predicate MentionsCamp(ms: seq<TaggedMention>, camp: int)
  {
    exists i | 0 <= i < |ms| :: ms[i].camp == Some(camp)
  }

  function MentionFlag(flag: string, camp: int, ctx: Ctx): Settled<Option<Ctx>>
  {
    match Get<Item>(ctx, "mentions")
    case Obj(MentionsObj(ms)) => Resolved(Some(map[flag := Bool(MentionsCamp(ms, camp))]))
    case _ => Rejected
  }

  function MentionFlagSpec(description: string, flag: string, camp: int): (r: RuleSpec<Item>)
    ensures NewRule(r).tests == [IsTruthy("mentions")]
  {
    RuleSpec(description, [Key("mentions")], ctx => MentionFlag(flag, camp, ctx))
  }

  function MentionFlagSpecs(env: Env): (r: seq<RuleSpec<Item>>)
    ensures ConditionsParse(r)
  {
    [ MentionFlagSpec(MentionsBrokerRule, "mentionsBroker", Broker),
      MentionFlagSpec(MentionsPolicyMakerRule, "mentionsPolicyMaker", PolicyMaker),
      MentionFlagSpec(MentionsYouthRule, "mentionsYouth", Youth) ]
  }

  function NewContribution(ctx: Ctx): Settled<Option<Ctx>>
  {
    Resolved(Some(map["newContribution" := Bool(true)]))
  }

  /** A property name a string condition can test, unnegated. */
  predicate PlainKey(k: string)
  {
    MatchableByDots(k) && k[0] != '!'
  }

  /** The six flag names are plain property names. */
  lemma FlagNamesArePlain()
    ensures PlainKey("authorBroker") && PlainKey("authorPolicyMaker") && PlainKey("authorYouth")
    ensures PlainKey("mentionsBroker") && PlainKey("mentionsPolicyMaker") && PlainKey("mentionsYouth")
  {
  }

  /** A triad rule: three flags of the context, all truthy. */
  function TriadSpec(description: string, author: string, first: string, second: string): (r: RuleSpec<Item>)
    requires PlainKey(author) && PlainKey(first) && PlainKey(second)
    ensures NewRule(r) == Rule(description, [IsTruthy(author), IsTruthy(first), IsTruthy(second)], NewContribution)
  {
    var r := RuleSpec(description, [Key(author), Key(first), Key(second)], NewContribution);
    assert PrepareMatch(r.conditions[0]) == IsTruthy(author);
    assert PrepareMatch(r.conditions[1]) == IsTruthy(first);
    assert PrepareMatch(r.conditions[2]) == IsTruthy(second);
    var tests := PrepareAll(r.conditions);
    assert tests == [IsTruthy(author), IsTruthy(first), IsTruthy(second)];
    r
  }

  function TriadSpecs(env: Env): (r: seq<RuleSpec<Item>>)
    ensures ConditionsParse(r)
  {
    FlagNamesArePlain();
    [ TriadSpec(BrokerTriadRule,
                "authorBroker", "mentionsPolicyMaker", "mentionsYouth"),
      TriadSpec(PolicyMakerTriadRule,
                "authorPolicyMaker", "mentionsYouth", "mentionsBroker"),
      TriadSpec(YouthTriadRule,
                "authorYouth", "mentionsPolicyMaker", "mentionsBroker") ]
  }

  /** The `camp` of a handle value; `undefined` for anything else. */
  function CampField(h: Value<Item>): Option<int>
  {
    if h.Obj? && h.o.HandleObj? then h.o.camp else None
  }

  /** Saves a new contribution row: the author's camp (`handle` defaults to
      `{}`), the involvement flags from the author flags (`=== true`), no
      tweets and no contributors. */
  function Create(db: Tables, ctx: Ctx): Settled<Option<Ctx>>
  {
    match Get<Item>(ctx, "tweet")
    case Obj(TweetObj(t)) =>
      if Get(ctx, "handle").Null? then Rejected
      else
        var row := Fresh(db.nextId, t.id, CampField(Get(ctx, "handle")),
                         Get(ctx, "authorPolicyMaker") == Bool(true), Get(ctx, "authorYouth") == Bool(true));
        Resolved(Some(map["contribution" := Obj(ContributionObj(row))]))
    case _ => Rejected
  }

  /** Counts the tweet in the contribution. The source mutates the tweet
      and contribution objects of the context in place and resolves to
      `undefined`; the patch here holds the same two updated objects.
      Destructuring `handle: { screen_name }` throws when the author is not
      a known handle, and then nothing is updated. */
  function Update(ctx: Ctx): Settled<Option<Ctx>>
  {
    match (Get<Item>(ctx, "tweet"), Get<Item>(ctx, "contribution"), Get<Item>(ctx, "handle"))
    case (Obj(TweetObj(t)), Obj(ContributionObj(c)), Obj(HandleObj(_, u))) =>
      var counted := AddTweet(c, u.screenName, Truthy(Get(ctx, "authorYouth")), Truthy(Get(ctx, "authorPolicyMaker")));
      Resolved(Some(map["tweet" := Obj(TweetObj(t.(contributionId := Some(c.id)))),
                        "contribution" := Obj(ContributionObj(counted))]))
    case _ => Rejected
  }

  function CreateSpec(db: Tables): (r: RuleSpec<Item>)
    ensures NewRule(r).tests == [IsTruthy("newContribution")]
  {
    RuleSpec(CreateRule, [Key("newContribution")], ctx => Create(db, ctx))
  }

  function UpdateSpec(): (r: RuleSpec<Item>)
    ensures NewRule(r).tests == [IsTruthy("contribution")]
  {
    RuleSpec(UpdateRule, [Key("contribution")], Update)
  }

  function WriteSpecs(db: Tables): (r: seq<RuleSpec<Item>>)
    ensures ConditionsParse(r)
  {
    [CreateSpec(db), UpdateSpec()]
  }

  function FetchSpecs(db: Tables): (r: seq<RuleSpec<Item>>)
    ensures ConditionsParse(r)
  {
    [ParentSpec(db), ContributionSpec(db)]
  }

  function LookupSpecs(store: Store): (r: seq<RuleSpec<Item>>)
    ensures ConditionsParse(r)
  {
    [HandleSpec(store), MentionsSpec(store)]
  }

  /** The fifteen rules of the module, as written. */
  function Specs(env: Env): (r: seq<RuleSpec<Item>>)
    ensures ConditionsParse(r) && |r| == 15
  {
    var a, b, c, d, e, f := FetchSpecs(env.db), LookupSpecs(env.store), AuthorFlagSpecs(env), MentionFlagSpecs(env), TriadSpecs(env), WriteSpecs(env.db);
    ConditionsParseStages(a, b, c, d, e, f);
    a + b + c + d + e + f
  }

  /** `engine.run({ tweet })` over the rules as written. */
  function Run(env: Env, t: Tweet): Ctx
  {
    RunSpecs(Specs(env), Start(t))
  }

  /** `process(tweet)`: the final context's `contribution`. */
  function Process(env: Env, t: Tweet): Value<Item>
  {
    Get(Run(env, t), "contribution")
  }

  // ---------------------------------------------------------------------
  // The chain, stage by stage

  /** Every property outside `keys` reads the same in both contexts. */
  ghost predicate SameExcept(a: Ctx, b: Ctx, keys: set<string>)
  {
    forall k | k !in keys :: Get(a, k) == Get(b, k)
  }

  /** What the two fetch rules leave under `contribution`: `undefined` when
      the tweet has no parent, the parent is not stored, or the parent is
      in no contribution; `null` when the parent names a contribution row
      that does not exist; otherwise that row. */
  function Linked(db: Tables, t: Tweet): Value<Item>
  {
    if t.parentId.None? || t.parentId.value !in db.tweets then Undefined
    else
      var p := db.tweets[t.parentId.value];
      if p.contributionId.None? then Undefined else FetchContribution(db, p.contributionId)
  }

  /** The fetch rules find the contribution of the tweet's parent, and
      touch nothing but `parent` and `contribution`. */
  lemma FetchStage(db: Tables, t: Tweet)
    ensures var r := RunSpecs(FetchSpecs(db), Start(t));
            && Get(r, "tweet") == Obj(TweetObj(t))
            && Get(r, "contribution") == Linked(db, t)
            && SameExcept(r, Start(t), {"parent", "contribution"})
  {
    var c0 := Start(t);
    assert FetchSpecs(db) == [ParentSpec(db)] + [ContributionSpec(db)];
    RunSpecsCons(ParentSpec(db), [ContributionSpec(db)], c0);
    var c1 := Apply(ParentSpec(db), c0);
    ParentStep(db, t);
    RunSpecsOne(ContributionSpec(db), c1);
    ContributionStep(db, c1);
  }

  lemma ParentStep(db: Tables, t: Tweet)
    ensures Apply(ParentSpec(db), Start(t)) ==
            if t.parentId.Some? then Start(t)["parent" := FetchTweet(db, t.parentId)] else Start(t)
  {
    assert NewRule(ParentSpec(db)).tests == [Custom(HasParent)];
  }

  lemma ContributionStep(db: Tables, ctx: Ctx)
    ensures var p := Get(ctx, "parent");
            Apply(ContributionSpec(db), ctx) ==
              if p.Obj? && p.o.TweetObj? && p.o.tweet.contributionId.Some?
              then ctx["contribution" := FetchContribution(db, p.o.tweet.contributionId)] else ctx
  {
    assert NewRule(ContributionSpec(db)).tests == [Custom(ParentHasContribution)];
  }

  /** The author becomes `handle` when the registry knows them; the
      mentions, each tagged with its camp, become `mentions` exactly when
      no contribution was found. */
  lemma LookupStage(store: Store, t: Tweet, ctx: Ctx)
    requires Get(ctx, "tweet") == Obj(TweetObj(t))
    ensures var r := RunSpecs(LookupSpecs(store), ctx);
            && Get(r, "handle") == (if Known(store, t.userId) then Obj(HandleObj(CampOf(store, t.userId), t.user))
                                    else Get(ctx, "handle"))
            && Get(r, "mentions") == (if Truthy(Get(ctx, "contribution")) then Get(ctx, "mentions")
                                      else Obj(MentionsObj(Tagged(store, t.entities.userMentions))))
            && SameExcept(r, ctx, {"handle", "mentions"})
  {
    assert LookupSpecs(store) == [HandleSpec(store)] + [MentionsSpec(store)];
    RunSpecsCons(HandleSpec(store), [MentionsSpec(store)], ctx);
    var c1 := Apply(HandleSpec(store), ctx);
    HandleStep(store, t, ctx);
    assert Get(c1, "tweet") == Get(ctx, "tweet") && Get(c1, "contribution") == Get(ctx, "contribution");
    RunSpecsOne(MentionsSpec(store), c1);
    MentionsStep(store, t, c1);
    LookupChain(ctx, c1, Apply(MentionsSpec(store), c1), Known(store, t.userId),
                Obj(HandleObj(CampOf(store, t.userId), t.user)),
                !Truthy(Get(ctx, "contribution")), Obj(MentionsObj(Tagged(store, t.entities.userMentions))));
  }

  /** The handle rule, then the mentions rule, each setting its own
      property or leaving the context as it is. */
  lemma LookupChain(ctx: Ctx, c1: Ctx, r: Ctx, b1: bool, v1: Value<Item>, b2: bool, v2: Value<Item>)
    requires c1 == if b1 then ctx["handle" := v1] else ctx
    requires r == if b2 then c1["mentions" := v2] else c1
    ensures Get(r, "handle") == if b1 then v1 else Get(ctx, "handle")
    ensures Get(r, "mentions") == if b2 then v2 else Get(ctx, "mentions")
    ensures SameExcept(r, ctx, {"handle", "mentions"})
  {
  }

  lemma HandleStep(store: Store, t: Tweet, ctx: Ctx)
    requires Get(ctx, "tweet") == Obj(TweetObj(t))
    ensures Apply(HandleSpec(store), ctx) ==
            if Known(store, t.userId) then ctx["handle" := Obj(HandleObj(CampOf(store, t.userId), t.user))] else ctx
  {
  }

  lemma MentionsStep(store: Store, t: Tweet, ctx: Ctx)
    requires Get(ctx, "tweet") == Obj(TweetObj(t))
    ensures Apply(MentionsSpec(store), ctx) ==
            if Truthy(Get(ctx, "contribution")) then ctx
            else ctx["mentions" := Obj(MentionsObj(Tagged(store, t.entities.userMentions)))]
  {
    var rule := NewRule(MentionsSpec(store));
    assert rule.tests == [IsFalsy("contribution")];
    if Truthy(Get(ctx, "contribution")) {
      StepWithoutMatch(rule, ctx, 0);
    } else {
      StepOnMatch(rule, ctx);
      MergeOne(ctx, "mentions", Obj(MentionsObj(Tagged(store, t.entities.userMentions))));
    }
  }

  /** Property `k` of the context is truthy. */
  predicate Flag(ctx: Ctx, k: string)
  {
    Truthy(Get(ctx, k))
  }

  /** As written, the author rules test a property no rule ever sets, so
      they leave the context as it is. */
  lemma AuthorFlagsAsWritten(env: Env, ctx: Ctx)
    requires !Flag(ctx, "handle.camp")
    ensures RunSpecs(AuthorFlagSpecs(env), ctx) == ctx
  {
    var specs := AuthorFlagSpecs(env);
    RunSpecsThree(specs, ctx);
    assert forall i | 0 <= i < 3 :: NewRule(specs[i]).tests == [IsTruthy("handle.camp")];
  }

  lemma MentionFlagStep(description: string, flag: string, camp: int, ctx: Ctx)
    ensures var m := Get(ctx, "mentions");
            Apply(MentionFlagSpec(description, flag, camp), ctx) ==
              if m.Obj? && m.o.MentionsObj? then ctx[flag := Bool(MentionsCamp(m.o.mentions, camp))] else ctx
  {
  }

  /** Whenever `mentions` holds the tagged mentions, even none, each mention
      flag is set, true exactly when some mention is of that camp; without
      them the context is left as it is. */
  lemma MentionFlagsStage(env: Env, ctx: Ctx)
    ensures var r := RunSpecs(MentionFlagSpecs(env), ctx);
            var m := Get(ctx, "mentions");
            && (m.Obj? && m.o.MentionsObj? ==>
                  && Get(r, "mentionsBroker") == Bool(MentionsCamp(m.o.mentions, Broker))
                  && Get(r, "mentionsPolicyMaker") == Bool(MentionsCamp(m.o.mentions, PolicyMaker))
                  && Get(r, "mentionsYouth") == Bool(MentionsCamp(m.o.mentions, Youth)))
            && (!(m.Obj? && m.o.MentionsObj?) ==> r == ctx)
            && SameExcept(r, ctx, {"mentionsBroker", "mentionsPolicyMaker", "mentionsYouth"})
  {
    var specs := MentionFlagSpecs(env);
    RunSpecsThree(specs, ctx);
    var c1 := Apply(specs[0], ctx);
    var c2 := Apply(specs[1], c1);
    MentionFlagStep(MentionsBrokerRule, "mentionsBroker", Broker, ctx);
    MentionFlagStep(MentionsPolicyMakerRule, "mentionsPolicyMaker", PolicyMaker, c1);
    MentionFlagStep(MentionsYouthRule, "mentionsYouth", Youth, c2);
    MentionChain(ctx, c1, c2, Apply(specs[2], c2));
  }

  /** Three mention rules in a row set the three flags from the same
      mentions, and nothing else. */
  lemma MentionChain(ctx: Ctx, c1: Ctx, c2: Ctx, r: Ctx)
    requires var m := Get(ctx, "mentions");
             c1 == if m.Obj? && m.o.MentionsObj? then ctx["mentionsBroker" := Bool(MentionsCamp(m.o.mentions, Broker))] else ctx
    requires var m := Get(c1, "mentions");
             c2 == if m.Obj? && m.o.MentionsObj? then c1["mentionsPolicyMaker" := Bool(MentionsCamp(m.o.mentions, PolicyMaker))] else c1
    requires var m := Get(c2, "mentions");
             r == if m.Obj? && m.o.MentionsObj? then c2["mentionsYouth" := Bool(MentionsCamp(m.o.mentions, Youth))] else c2
    ensures var m := Get(ctx, "mentions");
            && (m.Obj? && m.o.MentionsObj? ==>
                  && Get(r, "mentionsBroker") == Bool(MentionsCamp(m.o.mentions, Broker))
                  && Get(r, "mentionsPolicyMaker") == Bool(MentionsCamp(m.o.mentions, PolicyMaker))
                  && Get(r, "mentionsYouth") == Bool(MentionsCamp(m.o.mentions, Youth)))
            && (!(m.Obj? && m.o.MentionsObj?) ==> r == ctx)
            && SameExcept(r, ctx, {"mentionsBroker", "mentionsPolicyMaker", "mentionsYouth"})
  {
    assert Get(c1, "mentions") == Get(ctx, "mentions");
    assert Get(c2, "mentions") == Get(ctx, "mentions");
  }

  /** One of the three author/mention triads, read from the flags. */
  predicate TriadFlags(ctx: Ctx)
  {
    || (Flag(ctx, "authorBroker") && Flag(ctx, "mentionsPolicyMaker") && Flag(ctx, "mentionsYouth"))
    || (Flag(ctx, "authorPolicyMaker") && Flag(ctx, "mentionsYouth") && Flag(ctx, "mentionsBroker"))
    || (Flag(ctx, "authorYouth") && Flag(ctx, "mentionsPolicyMaker") && Flag(ctx, "mentionsBroker"))
  }

  lemma TriadStep(description: string, author: string, first: string, second: string, ctx: Ctx)
    requires PlainKey(author) && PlainKey(first) && PlainKey(second)
    ensures Apply(TriadSpec(description, author, first, second), ctx) ==
            if Flag(ctx, author) && Flag(ctx, first) && Flag(ctx, second) then ctx["newContribution" := Bool(true)] else ctx
  {
    var tests: seq<Test<Item>> := [IsTruthy(author), IsTruthy(first), IsTruthy(second)];
    assert Match(tests, ctx).holds <==> Holds(tests[0], ctx) && Holds(tests[1], ctx) && Holds(tests[2], ctx);
  }

  /** `newContribution` is set exactly when a triad holds. */
  lemma TriadStage(env: Env, ctx: Ctx)
    ensures var r := RunSpecs(TriadSpecs(env), ctx);
            && Get(r, "newContribution") == (if TriadFlags(ctx) then Bool(true) else Get(ctx, "newContribution"))
            && SameExcept(r, ctx, {"newContribution"})
  {
    var specs := TriadSpecs(env);
    RunSpecsThree(specs, ctx);
    var c1 := Apply(specs[0], ctx);
    var c2 := Apply(specs[1], c1);
    var r := Apply(specs[2], c2);
    TriadSteps(env, specs, ctx, c1, c2, r);
    TriadChain(ctx, c1, c2, r);
  }

  /** Three triad rules in a row set `newContribution` exactly when one of
      the triads holds, and nothing else. */
  lemma TriadChain(ctx: Ctx, c1: Ctx, c2: Ctx, r: Ctx)
    requires c1 == if Flag(ctx, "authorBroker") && Flag(ctx, "mentionsPolicyMaker") && Flag(ctx, "mentionsYouth")
                   then ctx["newContribution" := Bool(true)] else ctx
    requires c2 == if Flag(c1, "authorPolicyMaker") && Flag(c1, "mentionsYouth") && Flag(c1, "mentionsBroker")
                   then c1["newContribution" := Bool(true)] else c1
    requires r == if Flag(c2, "authorYouth") && Flag(c2, "mentionsPolicyMaker") && Flag(c2, "mentionsBroker")
                  then c2["newContribution" := Bool(true)] else c2
    ensures Get(r, "newContribution") == (if TriadFlags(ctx) then Bool(true) else Get(ctx, "newContribution"))
    ensures SameExcept(r, ctx, {"newContribution"})
  {
    TriadFlagsKept(ctx, c1);
    TriadFlagsKept(c1, c2);
    TriadFlagsKept(c2, r);
  }

  /** Setting `newContribution` changes no flag a triad reads. */
  lemma TriadFlagsKept(before: Ctx, after: Ctx)
    requires after == before || after == before["newContribution" := Bool(true)]
    ensures TriadFlags(after) == TriadFlags(before)
    ensures SameExcept(after, before, {"newContribution"})
    ensures Get(after, "newContribution") == Get(before, "newContribution") || Get(after, "newContribution") == Bool(true)
  {
  }

  lemma TriadSteps(env: Env, specs: seq<RuleSpec<Item>>, ctx: Ctx, c1: Ctx, c2: Ctx, r: Ctx)
    requires specs == TriadSpecs(env)
    requires c1 == Apply(specs[0], ctx) && c2 == Apply(specs[1], c1) && r == Apply(specs[2], c2)
    ensures c1 == if Flag(ctx, "authorBroker") && Flag(ctx, "mentionsPolicyMaker") && Flag(ctx, "mentionsYouth")
                  then ctx["newContribution" := Bool(true)] else ctx
    ensures c2 == if Flag(c1, "authorPolicyMaker") && Flag(c1, "mentionsYouth") && Flag(c1, "mentionsBroker")
                  then c1["newContribution" := Bool(true)] else c1
    ensures r == if Flag(c2, "authorYouth") && Flag(c2, "mentionsPolicyMaker") && Flag(c2, "mentionsBroker")
                 then c2["newContribution" := Bool(true)] else c2
  {
    FlagNamesArePlain();
    TriadStep(BrokerTriadRule,
              "authorBroker", "mentionsPolicyMaker", "mentionsYouth", ctx);
    TriadStep(PolicyMakerTriadRule,
              "authorPolicyMaker", "mentionsYouth", "mentionsBroker", c1);
    TriadStep(YouthTriadRule,
              "authorYouth", "mentionsPolicyMaker", "mentionsBroker", c2);
  }

  /** `handle && handle.camp`: the condition the author rules evidently
      intend by "handle.camp". */
  function HandleCamp(ctx: Ctx): Settled<Value<Item>>
  {
    match Get<Item>(ctx, "handle")
    case Obj(HandleObj(c, _)) => Resolved(if c.Some? then Num(c.value) else Undefined)
    case v => Resolved(if Truthy(v) then Undefined else v)
  }

  function CorrectedAuthorFlagSpec(description: string, flag: string, camp: int): (r: RuleSpec<Item>)
    ensures NewRule(r).tests == [Custom(HandleCamp)]
  {
    RuleSpec(description, [Fn(HandleCamp)], ctx => AuthorFlag(flag, camp, ctx))
  }

  function CorrectedAuthorFlagSpecs(env: Env): (r: seq<RuleSpec<Item>>)
    ensures ConditionsParse(r)
  {
    [ CorrectedAuthorFlagSpec(AuthorBrokerRule, "authorBroker", Broker),
      CorrectedAuthorFlagSpec(AuthorPolicyMakerRule, "authorPolicyMaker", PolicyMaker),
      CorrectedAuthorFlagSpec(AuthorYouthRule, "authorYouth", Youth) ]
  }

  /** The author's camp as a truthy number, when the author is a handle
      with a camp. */
  predicate HasCamp(ctx: Ctx)
  {
    var c := CampField(Get(ctx, "handle"));
    c.Some? && c.value != 0
  }

  lemma CorrectedAuthorFlagStep(description: string, flag: string, camp: int, ctx: Ctx)
    ensures Apply(CorrectedAuthorFlagSpec(description, flag, camp), ctx) ==
            if HasCamp(ctx) then ctx[flag := Bool(CampField(Get(ctx, "handle")) == Some(camp))] else ctx
  {
  }

  /** Setting an author flag changes neither the handle nor `newContribution`. */
  lemma AuthorFlagKept(before: Ctx, after: Ctx, flag: string, v: Value<Item>)
    requires flag in {"authorBroker", "authorPolicyMaker", "authorYouth"}
    requires after == before || after == before[flag := v]
    ensures HasCamp(after) == HasCamp(before)
    ensures CampField(Get(after, "handle")) == CampField(Get(before, "handle"))
    ensures SameExcept(after, before, {"authorBroker", "authorPolicyMaker", "authorYouth"})
  {
  }

  /** With the evident intent, a handle author gets the three author flags,
      each true exactly for the author's camp. */
  lemma CorrectedAuthorFlagsStage(env: Env, ctx: Ctx)
    ensures var r := RunSpecs(CorrectedAuthorFlagSpecs(env), ctx);
            var c := CampField(Get(ctx, "handle"));
            && (HasCamp(ctx) ==>
                  && Get(r, "authorBroker") == Bool(c == Some(Broker))
                  && Get(r, "authorPolicyMaker") == Bool(c == Some(PolicyMaker))
                  && Get(r, "authorYouth") == Bool(c == Some(Youth)))
            && (!HasCamp(ctx) ==> r == ctx)
            && SameExcept(r, ctx, {"authorBroker", "authorPolicyMaker", "authorYouth"})
  {
    var specs := CorrectedAuthorFlagSpecs(env);
    var c := CampField(Get(ctx, "handle"));
    RunSpecsThree(specs, ctx);
    CorrectedAuthorFlagStep(AuthorBrokerRule, "authorBroker", Broker, ctx);
    var c1 := Apply(specs[0], ctx);
    AuthorFlagKept(ctx, c1, "authorBroker", Bool(c == Some(Broker)));
    CorrectedAuthorFlagStep(AuthorPolicyMakerRule, "authorPolicyMaker", PolicyMaker, c1);
    var c2 := Apply(specs[1], c1);
    AuthorFlagKept(c1, c2, "authorPolicyMaker", Bool(c == Some(PolicyMaker)));
    CorrectedAuthorFlagStep(AuthorYouthRule, "authorYouth", Youth, c2);
    var r := Apply(specs[2], c2);
    AuthorFlagKept(c2, r, "authorYouth", Bool(c == Some(Youth)));
  }

  lemma CreateStep(db: Tables, t: Tweet, ctx: Ctx)
    requires Get(ctx, "tweet") == Obj(TweetObj(t))
    ensures Apply(CreateSpec(db), ctx) ==
            if Flag(ctx, "newContribution") && !Get(ctx, "handle").Null? then
              ctx["contribution" := Obj(ContributionObj(
                    Fresh(db.nextId, t.id, CampField(Get(ctx, "handle")),
                          Get(ctx, "authorPolicyMaker") == Bool(true), Get(ctx, "authorYouth") == Bool(true))))]
            else ctx
  {
  }

  lemma UpdateStep(ctx: Ctx)
    ensures var t := Get(ctx, "tweet");
            var c := Get(ctx, "contribution");
            var h := Get(ctx, "handle");
            Apply(UpdateSpec(), ctx) ==
              if t.Obj? && t.o.TweetObj? && c.Obj? && c.o.ContributionObj? && h.Obj? && h.o.HandleObj? then
                ctx["tweet" := Obj(TweetObj(t.o.tweet.(contributionId := Some(c.o.contribution.id))))]
                   ["contribution" := Obj(ContributionObj(AddTweet(c.o.contribution, h.o.user.screenName,
                                                                   Flag(ctx, "authorYouth"), Flag(ctx, "authorPolicyMaker"))))]
              else ctx
  {
    var r := Update(ctx);
    if r.Resolved? {
      assert ctx + r.value.value == ctx["tweet" := r.value.value["tweet"]]["contribution" := r.value.value["contribution"]];
    }
  }

  /** Create, then count: a triad starts a new contribution (no tweets,
      no contributors, the author's camp and flags); then whatever
      contribution the context holds counts the tweet, provided the
      author is a handle. */
  lemma WriteStage(db: Tables, t: Tweet, ctx: Ctx)
    requires Get(ctx, "tweet") == Obj(TweetObj(t))
    requires !Get(ctx, "handle").Null?
    ensures var r := RunSpecs(WriteSpecs(db), ctx);
            var h := Get(ctx, "handle");
            var c := if Flag(ctx, "newContribution")
                     then Obj(ContributionObj(Fresh(db.nextId, t.id, CampField(h),
                                                    Get(ctx, "authorPolicyMaker") == Bool(true),
                                                    Get(ctx, "authorYouth") == Bool(true))))
                     else Get(ctx, "contribution");
            if c.Obj? && c.o.ContributionObj? && h.Obj? && h.o.HandleObj? then
              && Get(r, "contribution") == Obj(ContributionObj(AddTweet(c.o.contribution, h.o.user.screenName,
                                                                        Flag(ctx, "authorYouth"), Flag(ctx, "authorPolicyMaker"))))
              && Get(r, "tweet") == Obj(TweetObj(t.(contributionId := Some(c.o.contribution.id))))
            else
              Get(r, "contribution") == c && Get(r, "tweet") == Obj(TweetObj(t))
  {
    var specs := WriteSpecs(db);
    assert specs == [CreateSpec(db)] + [UpdateSpec()];
    RunSpecsCons(CreateSpec(db), [UpdateSpec()], ctx);
    var c1 := Apply(CreateSpec(db), ctx);
    CreateKeeps(db, t, ctx);
    RunSpecsOne(UpdateSpec(), c1);
    UpdateStep(c1);
  }

  /** What the creation rule leaves for the update rule to read. */
  lemma CreateKeeps(db: Tables, t: Tweet, ctx: Ctx)
    requires Get(ctx, "tweet") == Obj(TweetObj(t))
    requires !Get(ctx, "handle").Null?
    ensures var c1 := Apply(CreateSpec(db), ctx);
            && Get(c1, "contribution") == (if Flag(ctx, "newContribution")
                                          then Obj(ContributionObj(Fresh(db.nextId, t.id, CampField(Get(ctx, "handle")),
                                                                         Get(ctx, "authorPolicyMaker") == Bool(true),
                                                                         Get(ctx, "authorYouth") == Bool(true))))
                                          else Get(ctx, "contribution"))
            && Get(c1, "tweet") == Obj(TweetObj(t)) && Get(c1, "handle") == Get(ctx, "handle")
            && Flag(c1, "authorYouth") == Flag(ctx, "authorYouth")
            && Flag(c1, "authorPolicyMaker") == Flag(ctx, "authorPolicyMaker")
  {
    CreateStep(db, t, ctx);
  }

  /** `Linked` is `undefined`, `null` or a contribution row. */
  lemma LinkedShape(db: Tables, t: Tweet)
    ensures var v := Linked(db, t);
            v == Undefined || v == Null || (v.Obj? && v.o.ContributionObj?)
  {
  }

  /** The context after the fetch and lookup rules, whichever author
      rules follow. */
  lemma FrontStages(env: Env, t: Tweet)
    ensures var r := RunSpecs(LookupSpecs(env.store), RunSpecs(FetchSpecs(env.db), Start(t)));
            && Get(r, "tweet") == Obj(TweetObj(t))
            && Get(r, "contribution") == Linked(env.db, t)
            && Get(r, "handle") == (if Known(env.store, t.userId) then Obj(HandleObj(CampOf(env.store, t.userId), t.user))
                                    else Undefined)
            && Get(r, "mentions") == (if Truthy(Linked(env.db, t)) then Undefined
                                      else Obj(MentionsObj(Tagged(env.store, t.entities.userMentions))))
            && SameExcept(r, Start(t), {"parent", "contribution", "handle", "mentions"})
  {
    FetchStage(env.db, t);
    var c1 := RunSpecs(FetchSpecs(env.db), Start(t));
    LookupStage(env.store, t, c1);
  }

  lemma RunInStages(env: Env, t: Tweet)
    ensures Run(env, t) ==
            RunSpecs(WriteSpecs(env.db), RunSpecs(TriadSpecs(env), RunSpecs(MentionFlagSpecs(env), RunSpecs(AuthorFlagSpecs(env),
              RunSpecs(LookupSpecs(env.store), RunSpecs(FetchSpecs(env.db), Start(t)))))))
  {
    RunSpecsStages(FetchSpecs(env.db), LookupSpecs(env.store), AuthorFlagSpecs(env), MentionFlagSpecs(env), TriadSpecs(env), WriteSpecs(env.db), Start(t));
  }

  /** As written, the author rules do nothing and the mention rules only
      set the mention flags. */
  lemma AuthorMentionAsWritten(env: Env, ctx: Ctx)
    requires !Flag(ctx, "handle.camp")
    ensures var r := RunSpecs(MentionFlagSpecs(env), RunSpecs(AuthorFlagSpecs(env), ctx));
            SameExcept(r, ctx, {"mentionsBroker", "mentionsPolicyMaker", "mentionsYouth"})
  {
    AuthorFlagsAsWritten(env, ctx);
    MentionFlagsStage(env, ctx);
  }

  /** The triad rules only ever set `newContribution`. */
  lemma TriadKeeps(env: Env, ctx: Ctx)
    ensures var r := RunSpecs(TriadSpecs(env), ctx);
            && Get(r, "newContribution") == (if TriadFlags(ctx) then Bool(true) else Get(ctx, "newContribution"))
            && Get(r, "tweet") == Get(ctx, "tweet")
            && Get(r, "contribution") == Get(ctx, "contribution")
            && Get(r, "handle") == Get(ctx, "handle")
            && Get(r, "authorYouth") == Get(ctx, "authorYouth")
            && Get(r, "authorPolicyMaker") == Get(ctx, "authorPolicyMaker")
  {
    TriadStage(env, ctx);
    KeptOutside(RunSpecs(TriadSpecs(env), ctx), ctx);
  }

  /** What a context keeps when only `newContribution` may change. */
  lemma KeptOutside(r: Ctx, ctx: Ctx)
    requires SameExcept(r, ctx, {"newContribution"})
    ensures Get(r, "tweet") == Get(ctx, "tweet")
    ensures Get(r, "contribution") == Get(ctx, "contribution")
    ensures Get(r, "handle") == Get(ctx, "handle")
    ensures Get(r, "authorYouth") == Get(ctx, "authorYouth")
    ensures Get(r, "authorPolicyMaker") == Get(ctx, "authorPolicyMaker")
  {
  }

  /** As written, with no author flag set beforehand, the flag rules leave
      no author flag and no `newContribution` behind. */
  lemma FlagStagesAsWritten(env: Env, ctx: Ctx)
    requires !Flag(ctx, "handle.camp") && !Flag(ctx, "newContribution")
    requires !Flag(ctx, "authorBroker") && !Flag(ctx, "authorPolicyMaker") && !Flag(ctx, "authorYouth")
    ensures var r := RunSpecs(TriadSpecs(env), RunSpecs(MentionFlagSpecs(env), RunSpecs(AuthorFlagSpecs(env), ctx)));
            && Get(r, "tweet") == Get(ctx, "tweet")
            && Get(r, "contribution") == Get(ctx, "contribution")
            && Get(r, "handle") == Get(ctx, "handle")
            && !Flag(r, "newContribution") && !Flag(r, "authorYouth") && !Flag(r, "authorPolicyMaker")
  {
    AuthorMentionAsWritten(env, ctx);
    var c4 := RunSpecs(MentionFlagSpecs(env), RunSpecs(AuthorFlagSpecs(env), ctx));
    TriadStage(env, c4);
    AsWrittenChain(ctx, c4, RunSpecs(TriadSpecs(env), c4));
  }

  /** Mention flags set without author flags cannot complete a triad. */
  lemma AsWrittenChain(ctx: Ctx, c4: Ctx, r: Ctx)
    requires !Flag(ctx, "newContribution")
    requires !Flag(ctx, "authorBroker") && !Flag(ctx, "authorPolicyMaker") && !Flag(ctx, "authorYouth")
    requires SameExcept(c4, ctx, {"mentionsBroker", "mentionsPolicyMaker", "mentionsYouth"})
    requires Get(r, "newContribution") == (if TriadFlags(c4) then Bool(true) else Get(c4, "newContribution"))
    requires SameExcept(r, c4, {"newContribution"})
    ensures Get(r, "tweet") == Get(ctx, "tweet")
    ensures Get(r, "contribution") == Get(ctx, "contribution")
    ensures Get(r, "handle") == Get(ctx, "handle")
    ensures !Flag(r, "newContribution") && !Flag(r, "authorYouth") && !Flag(r, "authorPolicyMaker")
  {
    assert Get(c4, "authorBroker") == Get(ctx, "authorBroker");
    assert Get(c4, "authorPolicyMaker") == Get(ctx, "authorPolicyMaker");
    assert Get(c4, "authorYouth") == Get(ctx, "authorYouth");
    assert Get(c4, "newContribution") == Get(ctx, "newContribution");
  }

  /** None of the properties the flag rules read or write is set. */
  predicate Unflagged(ctx: Ctx)
  {
    && Get(ctx, "handle.camp") == Undefined && Get(ctx, "newContribution") == Undefined
    && Get(ctx, "authorBroker") == Undefined && Get(ctx, "authorPolicyMaker") == Undefined
    && Get(ctx, "authorYouth") == Undefined && Get(ctx, "mentionsBroker") == Undefined
    && Get(ctx, "mentionsPolicyMaker") == Undefined && Get(ctx, "mentionsYouth") == Undefined
  }

  /** The context after the fetch and lookup rules, named. */
  lemma AfterLookup(env: Env, t: Tweet) returns (ctx: Ctx)
    ensures ctx == RunSpecs(LookupSpecs(env.store), RunSpecs(FetchSpecs(env.db), Start(t)))
    ensures Get(ctx, "tweet") == Obj(TweetObj(t))
    ensures Get(ctx, "contribution") == Linked(env.db, t)
    ensures Get(ctx, "handle") == if Known(env.store, t.userId) then Obj(HandleObj(CampOf(env.store, t.userId), t.user))
                                  else Undefined
    ensures Get(ctx, "mentions") == if Truthy(Linked(env.db, t)) then Undefined
                                    else Obj(MentionsObj(Tagged(env.store, t.entities.userMentions)))
    ensures Unflagged(ctx)
  {
    FrontStages(env, t);
    ctx := RunSpecs(LookupSpecs(env.store), RunSpecs(FetchSpecs(env.db), Start(t)));
    UnflaggedFromStart(ctx, t);
  }

  lemma UnflaggedFromStart(ctx: Ctx, t: Tweet)
    requires SameExcept(ctx, Start(t), {"parent", "contribution", "handle", "mentions"})
    ensures Unflagged(ctx)
  {
    assert Get(ctx, "handle.camp") == Get(Start(t), "handle.camp");
    assert Get(ctx, "newContribution") == Get(Start(t), "newContribution");
    assert Get(ctx, "authorBroker") == Get(Start(t), "authorBroker");
    assert Get(ctx, "authorPolicyMaker") == Get(Start(t), "authorPolicyMaker");
    assert Get(ctx, "authorYouth") == Get(Start(t), "authorYouth");
    assert Get(ctx, "mentionsBroker") == Get(Start(t), "mentionsBroker");
    assert Get(ctx, "mentionsPolicyMaker") == Get(Start(t), "mentionsPolicyMaker");
    assert Get(ctx, "mentionsYouth") == Get(Start(t), "mentionsYouth");
  }

  /** As written, the context the two write rules see: no author flag and
      no `newContribution`. */
  lemma BeforeWriteAsWritten(env: Env, t: Tweet) returns (ctx: Ctx)
    ensures Run(env, t) == RunSpecs(WriteSpecs(env.db), ctx)
    ensures Get(ctx, "tweet") == Obj(TweetObj(t))
    ensures Get(ctx, "contribution") == Linked(env.db, t)
    ensures Get(ctx, "handle") == if Known(env.store, t.userId) then Obj(HandleObj(CampOf(env.store, t.userId), t.user))
                                  else Undefined
    ensures !Flag(ctx, "newContribution") && !Flag(ctx, "authorYouth") && !Flag(ctx, "authorPolicyMaker")
  {
    var c2 := AfterLookup(env, t);
    FlagStagesAsWritten(env, c2);
    RunInStages(env, t);
    ctx := RunSpecs(TriadSpecs(env), RunSpecs(MentionFlagSpecs(env), RunSpecs(AuthorFlagSpecs(env), c2)));
  }

  /** What `process` does, as written. The author rules never fire, so no
      triad can hold and no contribution is ever created: the tweet is
      only ever counted in its parent's contribution, and only when the
      author is a known handle (otherwise the update throws and the
      parent's contribution is returned untouched). The involvement flags
      never change. */
  lemma ProcessAsWritten(env: Env, t: Tweet)
    ensures var r := Run(env, t);
            match Linked(env.db, t)
            case Obj(ContributionObj(c)) =>
              if Known(env.store, t.userId) then
                && Get(r, "contribution") == Obj(ContributionObj(AddTweet(c, t.user.screenName, false, false)))
                && Get(r, "tweet") == Obj(TweetObj(t.(contributionId := Some(c.id))))
              else
                Get(r, "contribution") == Obj(ContributionObj(c)) && Get(r, "tweet") == Obj(TweetObj(t))
            case v => Get(r, "contribution") == v && Get(r, "tweet") == Obj(TweetObj(t))
  {
    var ctx := BeforeWriteAsWritten(env, t);
    WriteStage(env.db, t, ctx);
    LinkedShape(env.db, t);
  }

  // ---------------------------------------------------------------------
  // The chain with the author rules gated as evidently intended

  /** The fifteen rules, the author rules gated on the handle's camp. */
  function CorrectedSpecs(env: Env): (r: seq<RuleSpec<Item>>)
    ensures ConditionsParse(r) && |r| == 15
  {
    var a, b, c, d, e, f := FetchSpecs(env.db), LookupSpecs(env.store), CorrectedAuthorFlagSpecs(env), MentionFlagSpecs(env), TriadSpecs(env), WriteSpecs(env.db);
    ConditionsParseStages(a, b, c, d, e, f);
    a + b + c + d + e + f
  }

  function CorrectedRun(env: Env, t: Tweet): Ctx
  {
    RunSpecs(CorrectedSpecs(env), Start(t))
  }

  function CorrectedProcess(env: Env, t: Tweet): Value<Item>
  {
    Get(CorrectedRun(env, t), "contribution")
  }

  lemma CorrectedRunInStages(env: Env, t: Tweet)
    ensures CorrectedRun(env, t) ==
            RunSpecs(WriteSpecs(env.db), RunSpecs(TriadSpecs(env), RunSpecs(MentionFlagSpecs(env), RunSpecs(CorrectedAuthorFlagSpecs(env),
              RunSpecs(LookupSpecs(env.store), RunSpecs(FetchSpecs(env.db), Start(t)))))))
  {
    RunSpecsStages(FetchSpecs(env.db), LookupSpecs(env.store), CorrectedAuthorFlagSpecs(env), MentionFlagSpecs(env), TriadSpecs(env), WriteSpecs(env.db), Start(t));
  }

  /** A tweet starts a contribution when its author is in one camp and it
      mentions handles of both other camps. */
  predicate Triad(camp: Option<int>, ms: seq<TaggedMention>)
  {
    CampTriad(camp, MentionsCamp(ms, PolicyMaker), MentionsCamp(ms, Youth), MentionsCamp(ms, Broker))
  }

  /** What an author rule leaves under its flag, from an unflagged context. */
  function AuthorFlagValue(ctx: Ctx, camp: int): Value<Item>
  {
    if HasCamp(ctx) then Bool(CampField(Get(ctx, "handle")) == Some(camp)) else Undefined
  }

  /** What a mention rule leaves under its flag, from an unflagged context. */
  function MentionFlagValue(ctx: Ctx, camp: int): Value<Item>
  {
    match Get<Item>(ctx, "mentions")
    case Obj(MentionsObj(ms)) => Bool(MentionsCamp(ms, camp))
    case _ => Undefined
  }

  /** The author and mention rules, gated as intended, set the six flags
      and nothing else. */
  lemma CorrectedAuthorMention(env: Env, ctx: Ctx)
    requires Unflagged(ctx)
    ensures var r := RunSpecs(MentionFlagSpecs(env), RunSpecs(CorrectedAuthorFlagSpecs(env), ctx));
            && Get(r, "tweet") == Get(ctx, "tweet")
            && Get(r, "contribution") == Get(ctx, "contribution")
            && Get(r, "handle") == Get(ctx, "handle")
            && Get(r, "newContribution") == Get(ctx, "newContribution")
            && Get(r, "authorBroker") == AuthorFlagValue(ctx, Broker)
            && Get(r, "authorPolicyMaker") == AuthorFlagValue(ctx, PolicyMaker)
            && Get(r, "authorYouth") == AuthorFlagValue(ctx, Youth)
            && Get(r, "mentionsBroker") == MentionFlagValue(ctx, Broker)
            && Get(r, "mentionsPolicyMaker") == MentionFlagValue(ctx, PolicyMaker)
            && Get(r, "mentionsYouth") == MentionFlagValue(ctx, Youth)
  {
    CorrectedAuthorFlagsStage(env, ctx);
    var c3 := RunSpecs(CorrectedAuthorFlagSpecs(env), ctx);
    AuthorFlagsSet(ctx, c3);
    MentionFlagsStage(env, c3);
    MentionFlagsSet(ctx, c3, RunSpecs(MentionFlagSpecs(env), c3));
  }

  /** The author stage's effect, read from an unflagged context. */
  lemma AuthorFlagsSet(ctx: Ctx, r: Ctx)
    requires Unflagged(ctx)
    requires var c := CampField(Get(ctx, "handle"));
             && (HasCamp(ctx) ==>
                   && Get(r, "authorBroker") == Bool(c == Some(Broker))
                   && Get(r, "authorPolicyMaker") == Bool(c == Some(PolicyMaker))
                   && Get(r, "authorYouth") == Bool(c == Some(Youth)))
             && (!HasCamp(ctx) ==> r == ctx)
             && SameExcept(r, ctx, {"authorBroker", "authorPolicyMaker", "authorYouth"})
    ensures Get(r, "authorBroker") == AuthorFlagValue(ctx, Broker)
    ensures Get(r, "authorPolicyMaker") == AuthorFlagValue(ctx, PolicyMaker)
    ensures Get(r, "authorYouth") == AuthorFlagValue(ctx, Youth)
    ensures Get(r, "tweet") == Get(ctx, "tweet") && Get(r, "contribution") == Get(ctx, "contribution")
    ensures Get(r, "handle") == Get(ctx, "handle") && Get(r, "newContribution") == Get(ctx, "newContribution")
    ensures Get(r, "mentions") == Get(ctx, "mentions")
    ensures Get(r, "mentionsBroker") == Undefined && Get(r, "mentionsPolicyMaker") == Undefined
    ensures Get(r, "mentionsYouth") == Undefined
  {
    assert Get(r, "mentionsBroker") == Get(ctx, "mentionsBroker");
    assert Get(r, "mentionsPolicyMaker") == Get(ctx, "mentionsPolicyMaker");
    assert Get(r, "mentionsYouth") == Get(ctx, "mentionsYouth");
    assert Get(r, "tweet") == Get(ctx, "tweet");
    assert Get(r, "contribution") == Get(ctx, "contribution");
    assert Get(r, "handle") == Get(ctx, "handle");
    assert Get(r, "newContribution") == Get(ctx, "newContribution");
    assert Get(r, "mentions") == Get(ctx, "mentions");
  }

  /** The mention stage's effect, read from the context before the author
      stage. */
  lemma MentionFlagsSet(ctx: Ctx, before: Ctx, r: Ctx)
    requires Get(before, "mentions") == Get(ctx, "mentions")
    requires Get(before, "mentionsBroker") == Undefined && Get(before, "mentionsPolicyMaker") == Undefined
    requires Get(before, "mentionsYouth") == Undefined
    requires var m := Get(before, "mentions");
             && (m.Obj? && m.o.MentionsObj? ==>
                   && Get(r, "mentionsBroker") == Bool(MentionsCamp(m.o.mentions, Broker))
                   && Get(r, "mentionsPolicyMaker") == Bool(MentionsCamp(m.o.mentions, PolicyMaker))
                   && Get(r, "mentionsYouth") == Bool(MentionsCamp(m.o.mentions, Youth)))
             && (!(m.Obj? && m.o.MentionsObj?) ==> r == before)
             && SameExcept(r, before, {"mentionsBroker", "mentionsPolicyMaker", "mentionsYouth"})
    ensures Get(r, "mentionsBroker") == MentionFlagValue(ctx, Broker)
    ensures Get(r, "mentionsPolicyMaker") == MentionFlagValue(ctx, PolicyMaker)
    ensures Get(r, "mentionsYouth") == MentionFlagValue(ctx, Youth)
    ensures Get(r, "tweet") == Get(before, "tweet") && Get(r, "contribution") == Get(before, "contribution")
    ensures Get(r, "handle") == Get(before, "handle") && Get(r, "newContribution") == Get(before, "newContribution")
    ensures Get(r, "authorBroker") == Get(before, "authorBroker")
    ensures Get(r, "authorPolicyMaker") == Get(before, "authorPolicyMaker")
    ensures Get(r, "authorYouth") == Get(before, "authorYouth")
  {
    assert Get(r, "tweet") == Get(before, "tweet");
    assert Get(r, "contribution") == Get(before, "contribution");
    assert Get(r, "handle") == Get(before, "handle");
    assert Get(r, "newContribution") == Get(before, "newContribution");
    assert Get(r, "authorBroker") == Get(before, "authorBroker");
    assert Get(r, "authorPolicyMaker") == Get(before, "authorPolicyMaker");
    assert Get(r, "authorYouth") == Get(before, "authorYouth");
  }

  /** Read from the flags, a triad is the camp triad of the handle and the
      tagged mentions. */
  lemma TriadFlagsMeaning(before: Ctx, after: Ctx)
    requires Get(after, "authorBroker") == AuthorFlagValue(before, Broker)
    requires Get(after, "authorPolicyMaker") == AuthorFlagValue(before, PolicyMaker)
    requires Get(after, "authorYouth") == AuthorFlagValue(before, Youth)
    requires Get(after, "mentionsBroker") == MentionFlagValue(before, Broker)
    requires Get(after, "mentionsPolicyMaker") == MentionFlagValue(before, PolicyMaker)
    requires Get(after, "mentionsYouth") == MentionFlagValue(before, Youth)
    ensures var m := Get(before, "mentions");
            TriadFlags(after) <==>
              HasCamp(before) && m.Obj? && m.o.MentionsObj? && Triad(CampField(Get(before, "handle")), m.o.mentions)
  {
  }

  /** From an unflagged context, the flag rules gated as intended set
      `newContribution` exactly on a camp triad. */
  lemma FlagStagesCorrected(env: Env, ctx: Ctx)
    requires Unflagged(ctx)
    ensures var r := RunSpecs(TriadSpecs(env), RunSpecs(MentionFlagSpecs(env), RunSpecs(CorrectedAuthorFlagSpecs(env), ctx)));
            var m := Get(ctx, "mentions");
            && Get(r, "tweet") == Get(ctx, "tweet")
            && Get(r, "contribution") == Get(ctx, "contribution")
            && Get(r, "handle") == Get(ctx, "handle")
            && (Flag(r, "newContribution") <==>
                  HasCamp(ctx) && m.Obj? && m.o.MentionsObj? && Triad(CampField(Get(ctx, "handle")), m.o.mentions))
            && Get(r, "authorYouth") == AuthorFlagValue(ctx, Youth)
            && Get(r, "authorPolicyMaker") == AuthorFlagValue(ctx, PolicyMaker)
  {
    CorrectedAuthorMention(env, ctx);
    var c4 := RunSpecs(MentionFlagSpecs(env), RunSpecs(CorrectedAuthorFlagSpecs(env), ctx));
    TriadFlagsMeaning(ctx, c4);
    TriadKeeps(env, c4);
  }

  /** With the registry in shape, a handle author has a camp. */
  lemma KnownHasCamp(env: Env, t: Tweet, ctx: Ctx)
    requires WellFormed(env.store)
    requires Get(ctx, "handle") == if Known(env.store, t.userId) then Obj(HandleObj(CampOf(env.store, t.userId), t.user))
                                   else Undefined
    ensures HasCamp(ctx) <==> Known(env.store, t.userId)
    ensures HasCamp(ctx) ==> CampField(Get(ctx, "handle")) == CampOf(env.store, t.userId)
  {
    KnownIffCamp(env.store, t.userId);
  }

  /** With the evident intent, the context the two write rules see. */
  lemma BeforeWriteCorrected(env: Env, t: Tweet) returns (ctx: Ctx)
    requires WellFormed(env.store)
    ensures CorrectedRun(env, t) == RunSpecs(WriteSpecs(env.db), ctx)
    ensures Get(ctx, "tweet") == Obj(TweetObj(t))
    ensures Get(ctx, "contribution") == Linked(env.db, t)
    ensures Get(ctx, "handle") == if Known(env.store, t.userId) then Obj(HandleObj(CampOf(env.store, t.userId), t.user))
                                  else Undefined
    ensures var camp := CampOf(env.store, t.userId);
            && (Flag(ctx, "newContribution") <==>
                  Known(env.store, t.userId) && !Truthy(Linked(env.db, t)) && Triad(camp, Tagged(env.store, t.entities.userMentions)))
            && (Known(env.store, t.userId) ==>
                  Get(ctx, "authorYouth") == Bool(camp == Some(Youth))
                  && Get(ctx, "authorPolicyMaker") == Bool(camp == Some(PolicyMaker)))
  {
    var c2 := AfterLookup(env, t);
    KnownHasCamp(env, t, c2);
    FlagStagesCorrected(env, c2);
    CorrectedRunInStages(env, t);
    ctx := RunSpecs(TriadSpecs(env), RunSpecs(MentionFlagSpecs(env), RunSpecs(CorrectedAuthorFlagSpecs(env), c2)));
  }

  /** What the detector is meant to do, stated directly on the tables and
      the registry: the contribution `process` resolves to, and the tweet
      as saved. A reply in a contribution counts in it when its author is
      a handle, marking the author's camp as involved. Any other tweet by
      a handle that mentions handles of both other camps starts a
      contribution of the author's camp, under the next id, and counts in
      it. Otherwise the result is what the fetch rules found (`undefined`,
      or `null` for a missing row) and the tweet is left alone. */
  function Intended(env: Env, t: Tweet): (Value<Item>, Tweet)
  {
    var camp := CampOf(env.store, t.userId);
    var youth, pm := camp == Some(Youth), camp == Some(PolicyMaker);
    match Linked(env.db, t)
    case Obj(ContributionObj(c)) =>
      if Known(env.store, t.userId) then
        (Obj(ContributionObj(AddTweet(c, t.user.screenName, youth, pm))), t.(contributionId := Some(c.id)))
      else (Obj(ContributionObj(c)), t)
    case v =>
      if Known(env.store, t.userId) && Triad(camp, Tagged(env.store, t.entities.userMentions)) then
        (Obj(ContributionObj(AddTweet(Fresh(env.db.nextId, t.id, camp, pm, youth), t.user.screenName, youth, pm))),
         t.(contributionId := Some(env.db.nextId)))
      else (v, t)
  }

  /** The write rules, from the context the corrected flag rules leave. */
  lemma WriteCorrected(env: Env, t: Tweet, ctx: Ctx)
    requires Get(ctx, "tweet") == Obj(TweetObj(t))
    requires Get(ctx, "contribution") == Linked(env.db, t)
    requires Get(ctx, "handle") == if Known(env.store, t.userId) then Obj(HandleObj(CampOf(env.store, t.userId), t.user))
                                   else Undefined
    requires var camp := CampOf(env.store, t.userId);
             && (Flag(ctx, "newContribution") <==>
                   Known(env.store, t.userId) && !Truthy(Linked(env.db, t)) && Triad(camp, Tagged(env.store, t.entities.userMentions)))
             && (Known(env.store, t.userId) ==>
                   Get(ctx, "authorYouth") == Bool(camp == Some(Youth))
                   && Get(ctx, "authorPolicyMaker") == Bool(camp == Some(PolicyMaker)))
    ensures var r := RunSpecs(WriteSpecs(env.db), ctx);
            Get(r, "contribution") == Intended(env, t).0 && Get(r, "tweet") == Obj(TweetObj(Intended(env, t).1))
  {
    WriteStage(env.db, t, ctx);
    LinkedShape(env.db, t);
  }

  /** With the evident intent, `process` does what `Intended` says. */
  lemma ProcessCorrected(env: Env, t: Tweet)
    requires WellFormed(env.store)
    ensures var r := CorrectedRun(env, t);
            Get(r, "contribution") == Intended(env, t).0 && Get(r, "tweet") == Obj(TweetObj(Intended(env, t).1))
  {
    var ctx := BeforeWriteCorrected(env, t);
    WriteCorrected(env, t, ctx);
  }

  lemma CreatedInCorrected(env: Env, t: Tweet)
    requires WellFormed(env.store)
    requires !Truthy(Linked(env.db, t)) && Known(env.store, t.userId)
    requires Triad(CampOf(env.store, t.userId), Tagged(env.store, t.entities.userMentions))
    ensures var camp := CampOf(env.store, t.userId);
            CorrectedProcess(env, t) ==
              Obj(ContributionObj(AddTweet(Fresh(env.db.nextId, t.id, camp, camp == Some(PolicyMaker), camp == Some(Youth)),
                                           t.user.screenName, camp == Some(Youth), camp == Some(PolicyMaker))))
  {
    ProcessCorrected(env, t);
    LinkedShape(env.db, t);
    assert Linked(env.db, t) == Undefined || Linked(env.db, t) == Null;
  }

  /** A contribution started by a tweet holds that one tweet, its author as
      the only contributor, the author's camp and the author's camp as the
      only camp involved. */
  lemma StartedContribution(env: Env, t: Tweet)
    requires WellFormed(env.store)
    requires !Truthy(Linked(env.db, t)) && Known(env.store, t.userId)
    requires Triad(CampOf(env.store, t.userId), Tagged(env.store, t.entities.userMentions))
    ensures var r := CorrectedProcess(env, t);
            var camp := CampOf(env.store, t.userId);
            && r.Obj? && r.o.ContributionObj?
            && r.o.contribution.id == env.db.nextId && r.o.contribution.tweetId == t.id
            && r.o.contribution.campId == camp
            && r.o.contribution.tweets == 1 && r.o.contribution.contributors == [t.user.screenName]
            && r.o.contribution.involvesPm == (camp == Some(PolicyMaker))
            && r.o.contribution.involvesYouth == (camp == Some(Youth))
  {
    var camp := CampOf(env.store, t.userId);
    var c := AddTweet(Fresh(env.db.nextId, t.id, camp, camp == Some(PolicyMaker), camp == Some(Youth)),
                      t.user.screenName, camp == Some(Youth), camp == Some(PolicyMaker));
    CreatedInCorrected(env, t);
    FirstTweet(env.db.nextId, t.id, camp, t.user.screenName, camp == Some(Youth), camp == Some(PolicyMaker));
  }

  /** The rules as written never start a contribution: a broker's tweet
      with no parent that mentions a policy maker and a youth handle comes
      out of `process` as `undefined`, while the evident intent starts a
      broker contribution with it. */
  lemma AuthorRulesNeverFire(env: Env, t: Tweet)
    requires WellFormed(env.store) && t.parentId.None?
    requires CampOf(env.store, t.userId) == Some(Broker)
    requires var ms := Tagged(env.store, t.entities.userMentions);
             MentionsCamp(ms, PolicyMaker) && MentionsCamp(ms, Youth)
    ensures Process(env, t) == Undefined
    ensures CorrectedProcess(env, t).Obj? && CorrectedProcess(env, t).o.ContributionObj?
    ensures CorrectedProcess(env, t).o.contribution.campId == Some(Broker)
  {
    KnownIffCamp(env.store, t.userId);
    NoParentAsWritten(env, t);
    StartedContribution(env, t);
  }

  lemma NoParentAsWritten(env: Env, t: Tweet)
    requires t.parentId.None?
    ensures Process(env, t) == Undefined
  {
    ProcessAsWritten(env, t);
  }

  /** The plugin's state: the handle registry its rules consult. */
  class Plugin {
    var handles: Handles

    /** At registration the registry holds the three empty camps. */
    constructor ()
      ensures fresh(handles)
      ensures WellFormed(handles.store)
      ensures forall c | c in handles.store :: handles.store[c] == {}
    {
      handles := new Handles();
    }

    /** `handleCreated({ id, camp_id })`. */
    method HandleCreated(id: string, campId: int) returns (ok: bool)
      modifies handles
      ensures ok <==> campId in old(handles.store)
      ensures handles.store == if ok then old(handles.store)[campId := old(handles.store)[campId] + {id}]
                               else old(handles.store)
    {
      ok := handles.Add(campId, id);
    }

    /** `handleRemoved({ id, camp_id })`. */
    method HandleRemoved(id: string, campId: int) returns (ok: bool)
      modifies handles
      ensures ok <==> campId in old(handles.store)
      ensures handles.store == if ok then old(handles.store)[campId := old(handles.store)[campId] - {id}]
                               else old(handles.store)
    {
      ok := handles.Delete(campId, id);
    }

    /** `process(tweet)`: the rules are registered in order, as written,
        with an evaluator, which runs them over `{ tweet }`; the result is
        the final context's `contribution`. */
    method Process(db: Tables, t: Tweet) returns (r: Value<Item>)
      ensures r == Get(Run(Env(handles.store, db), t), "contribution")
    {
      var ctx := Evaluate(Specs(Env(handles.store, db)), Start(t));
      r := Get(ctx.fields, "contribution");
    }
  }
}
