/** The older contribution detector of
    server/services/contribution/index.js: fifteen rules run by the older
    evaluator (module LegacyEvaluator). Instead of an in-memory registry it
    reads the `handle` table: the author's handle row, and the rows of the
    mentioned ids. The tables are read through `Tables`. */
module ContributionService {
  import opened Js
  import opened Records
  import opened Evaluator
  import opened LegacyEvaluator

  /** The objects the rules put in the context: the tweet and its parent,
      a contribution row, the author's handle row (its id and `camp_id`,
      None standing for null), and the fetched handle rows of the
      mentioned ids, keyed by id. */
  datatype Item =
    | TweetRec(tweet: Tweet)
    | ContributionRec(contribution: Contribution)
    | HandleRec(id: string, campId: Option<int>)
    | HandlesRec(handles: map<string, Option<int>>)

  type Ctx = Fields<Item>

  // The rules' descriptions, as `describe()` returns them.
  const FetchParentRule: string := "If tweet has parent, fetch parent"
  const FetchContributionRule: string := "If tweet is reply to contribution, fetch contribution"
  const FetchHandleRule: string := "If tweet author is in database, fetch handle"
  const FetchMentionsRule: string := "If handle is loaded, fetch mentioned handles"
  const AuthorBrokerRule: string := "If tweet author is broker, assign flag to context"
  const AuthorPolicyMakerRule: string := "If tweet author is policy maker, assign flag to context"
  const AuthorYouthRule: string := "If tweet author is youth, assign flag to context"
  const MentionsBrokerRule: string := "If tweet mentions broker, assign flag to context"
  const MentionsPolicyMakerRule: string := "If tweet mentions any pm handles, assign to context"
  const MentionsYouthRule: string := "If tweet mentions any youth handles, assign to context"
  const BrokerTriadRule: string := "If tweet author is broker and it mentions pm and youth, it is a contribution"
  const PolicyMakerTriadRule: string := "If tweet author is policy maker and it mentions broker and youth, it is a contribution"
  const YouthTriadRule: string := "If tweet author is youth and it mentions broker and policy maker, it is a contribution"
  const CreateRule: string := "If tweet is starts new contribution, create contribution"
  const UpdateRule: string := "If tweet is part of contribution, update contribution"

  /** The tweet, contribution and handle tables (a handle row by its id,
      with its `camp_id`), and the id the next saved contribution gets. */
  datatype Tables = Tables(
    tweets: map<string, Tweet>,
    contributions: map<int, Contribution>,
    handles: map<string, Option<int>>,
    nextId: int)

  /** `engine.run({ tweet })`. */
  function Start(t: Tweet): Ctx
  {
    map["tweet" := Obj(TweetRec(t))]
  }

  /** A `related(…).fetch()`: the row, or `null` when there is none. */
  function FetchTweet(db: Tables, id: Option<string>): Value<Item>
  {
    if id.Some? && id.value in db.tweets then Obj(TweetRec(db.tweets[id.value])) else Null
  }

  function FetchContribution(db: Tables, id: Option<int>): Value<Item>
  {
    if id.Some? && id.value in db.contributions then Obj(ContributionRec(db.contributions[id.value])) else Null
  }

  function FetchHandle(db: Tables, id: string): Value<Item>
  {
    if id in db.handles then Obj(HandleRec(id, db.handles[id])) else Null
  }

  /** `Handle.collection().query('whereIn', 'id', ids).fetch()`: the stored
      handle rows among the mentioned ids. */
  function Mentioned(db: Tables, ms: seq<Mention>): map<string, Option<int>>
  {
    map id | id in db.handles && MentionsId(ms, id) :: db.handles[id]
  }

  predicate MentionsId(ms: seq<Mention>, id: string)
  {
    exists i | 0 <= i < |ms| :: ms[i].id == id
  }

  /** `!!~handles.pluck('camp_id').indexOf(camp)`. */
  predicate InCamp(handles: map<string, Option<int>>, camp: int)
  {
    exists id | id in handles :: handles[id] == Some(camp)
  }

  // ---------------------------------------------------------------------
  // The rules, in the order they are added

  function ParentFetched(db: Tables, ctx: Ctx): Settled<Value<Item>>
  {
    match Get<Item>(ctx, "tweet")
    case Obj(TweetRec(t)) => Resolved(FetchTweet(db, t.parentId))
    case _ => Rejected
  }

  function SetParent(db: Tables, ctx: Ctx): Settled<Option<Ctx>>
  {
    match Get<Item>(ctx, "tweet")
    case Obj(TweetRec(t)) => Resolved(Some(map["parent" := FetchTweet(db, t.parentId)]))
    case _ => Rejected
  }

  function ParentSpec(db: Tables): RuleSpec<Item>
  {
    GuardedSpec(FetchParentRule, "tweet", ctx => ParentFetched(db, ctx), ctx => SetParent(db, ctx))
  }

  function ContributionFetched(db: Tables, ctx: Ctx): Settled<Value<Item>>
  {
    match Get<Item>(ctx, "parent")
    case Obj(TweetRec(p)) => Resolved(FetchContribution(db, p.contributionId))
    case _ => Rejected
  }

  function SetContribution(db: Tables, ctx: Ctx): Settled<Option<Ctx>>
  {
    match Get<Item>(ctx, "parent")
    case Obj(TweetRec(p)) => Resolved(Some(map["contribution" := FetchContribution(db, p.contributionId)]))
    case _ => Rejected
  }

  function ContributionSpec(db: Tables): RuleSpec<Item>
  {
    GuardedSpec(FetchContributionRule, "parent",
                ctx => ContributionFetched(db, ctx), ctx => SetContribution(db, ctx))
  }

  function HandleFetched(db: Tables, ctx: Ctx): Settled<Value<Item>>
  {
    match Get<Item>(ctx, "tweet")
    case Obj(TweetRec(t)) => Resolved(FetchHandle(db, t.userId))
    case _ => Rejected
  }

  function SetHandle(db: Tables, ctx: Ctx): Settled<Option<Ctx>>
  {
    match Get<Item>(ctx, "tweet")
    case Obj(TweetRec(t)) => Resolved(Some(map["handle" := FetchHandle(db, t.userId)]))
    case _ => Rejected
  }

  function HandleSpec(db: Tables): RuleSpec<Item>
  {
    GuardedSpec(FetchHandleRule, "tweet",
                ctx => HandleFetched(db, ctx), ctx => SetHandle(db, ctx))
  }

  /** The fetch is made with `require: true`, so it rejects when none of
      the mentioned ids is a stored handle. */
  function FetchMentions(db: Tables, ctx: Ctx): Settled<Option<Ctx>>
  {
    match Get<Item>(ctx, "tweet")
    case Obj(TweetRec(t)) =>
      var m := Mentioned(db, t.entities.userMentions);
      if |m| == 0 then Rejected else Resolved(Some(map["mentions" := Obj(HandlesRec(m))]))
    case _ => Rejected
  }

  function MentionsSpec(db: Tables): (r: RuleSpec<Item>)
    ensures NewRule(r).tests == [IsTruthy("tweet"), IsFalsy("contribution")]
  {
    var r := RuleSpec(FetchMentionsRule, [Key("tweet"), Key("!contribution")],
                      ctx => FetchMentions(db, ctx));
    assert PrepareMatch(r.conditions[0]) == IsTruthy("tweet");
    assert PrepareMatch(r.conditions[1]) == IsFalsy("contribution");
    var tests := PrepareAll(r.conditions);
    assert tests == [IsTruthy("tweet"), IsFalsy("contribution")];
    r
  }

  /** `ctx.handle.get('camp_id') === camp` */
  function AuthorCampIs(camp: int, ctx: Ctx): Settled<Value<Item>>
  {
    match Get<Item>(ctx, "handle")
    case Obj(HandleRec(_, c)) => Resolved(Bool(c == Some(camp)))
    case _ => Rejected
  }

  function SetFlag(flag: string): Settled<Option<Ctx>>
  {
    Resolved(Some(map[flag := Bool(true)]))
  }

  function AuthorFlagSpec(description: string, flag: string, camp: int): RuleSpec<Item>
  {
    GuardedSpec(description, "handle", ctx => AuthorCampIs(camp, ctx), ctx => SetFlag(flag))
  }

  function AuthorFlagSpecs(db: Tables): (r: seq<RuleSpec<Item>>)
    ensures ConditionsParse(r)
  {
    [ AuthorFlagSpec(AuthorBrokerRule, "authorBroker", Broker),
      AuthorFlagSpec(AuthorPolicyMakerRule, "authorPolicyMaker", PolicyMaker),
      AuthorFlagSpec(AuthorYouthRule, "authorYouth", Youth) ]
  }

  /** `!!~ctx.mentions.pluck('camp_id').indexOf(camp)` */
  function MentionCampIs(camp: int, ctx: Ctx): Settled<Value<Item>>
  {
    match Get<Item>(ctx, "mentions")
    case Obj(HandlesRec(m)) => Resolved(Bool(InCamp(m, camp)))
    case _ => Rejected
  }

  function MentionFlagSpec(description: string, flag: string, camp: int): RuleSpec<Item>
  {
    GuardedSpec(description, "mentions", ctx => MentionCampIs(camp, ctx), ctx => SetFlag(flag))
  }

  function MentionFlagSpecs(db: Tables): (r: seq<RuleSpec<Item>>)
    ensures ConditionsParse(r)
  {
    [ MentionFlagSpec(MentionsBrokerRule, "mentionsBroker", Broker),
      MentionFlagSpec(MentionsPolicyMakerRule, "mentionsPolicyMaker", PolicyMaker),
      MentionFlagSpec(MentionsYouthRule, "mentionsYouth", Youth) ]
  }

  function IsContribution(ctx: Ctx): Settled<Option<Ctx>>
  {
    SetFlag("isContribution")
  }

  /** A property name a string condition can test, unnegated. */
  predicate PlainKey(k: string)
  {
    MatchableByDots(k) && k[0] != '!'
  }

  /** The six flag names are plain property names. */
  lemma FlagNamesArePlain()
    ensures PlainKey("authorBroker") && PlainKey("authorPolicyMaker") && PlainKey("authorYouth")
    ensures PlainKey("mentionsBroker") && PlainKey("mentionsPolicyMaker") && PlainKey("mentionsYouth")
  {
  }

  /** A triad rule: three flags of the context, all truthy. */
  function TriadSpec(description: string, author: string, first: string, second: string): (r: RuleSpec<Item>)
    requires PlainKey(author) && PlainKey(first) && PlainKey(second)
    ensures NewRule(r) == Rule(description, [IsTruthy(author), IsTruthy(first), IsTruthy(second)], IsContribution)
  {
    var r := RuleSpec(description, [Key(author), Key(first), Key(second)], IsContribution);
    assert PrepareMatch(r.conditions[0]) == IsTruthy(author);
    assert PrepareMatch(r.conditions[1]) == IsTruthy(first);
    assert PrepareMatch(r.conditions[2]) == IsTruthy(second);
    var tests := PrepareAll(r.conditions);
    assert tests == [IsTruthy(author), IsTruthy(first), IsTruthy(second)];
    r
  }

  function TriadSpecs(db: Tables): (r: seq<RuleSpec<Item>>)
    ensures ConditionsParse(r)
  {
    FlagNamesArePlain();
    [ TriadSpec(BrokerTriadRule,
                "authorBroker", "mentionsPolicyMaker", "mentionsYouth"),
      TriadSpec(PolicyMakerTriadRule,
                "authorPolicyMaker", "mentionsYouth", "mentionsBroker"),
      TriadSpec(YouthTriadRule,
                "authorYouth", "mentionsPolicyMaker", "mentionsBroker") ]
  }

  /** `ctx.handle ? ctx.handle.get('camp_id') : null` */
  function HandleCampOrNull(h: Value<Item>): Option<int>
  {
    if h.Obj? && h.o.HandleRec? then h.o.campId else None
  }

  /** The new row, saved under the next id. */
  function Create(db: Tables, ctx: Ctx): Settled<Option<Ctx>>
  {
    match Get<Item>(ctx, "tweet")
    case Obj(TweetRec(t)) =>
      Resolved(Some(map["contribution" := Obj(ContributionRec(
        Fresh(db.nextId, t.id, HandleCampOrNull(Get(ctx, "handle")),
              Get(ctx, "authorPolicyMaker") == Bool(true), Get(ctx, "authorYouth") == Bool(true))))]))
    case _ => Rejected
  }

  /** The update sets `contribution_id` on the tweet object and the counter,
      contributor list and flags on the contribution object, in place;
      here the action hands both back. The screen name is the tweet's own
      `user.screen_name`, so no handle is needed. */
  function Update(ctx: Ctx): Settled<Option<Ctx>>
  {
    match (Get<Item>(ctx, "tweet"), Get<Item>(ctx, "contribution"))
    case (Obj(TweetRec(t)), Obj(ContributionRec(c))) =>
      Resolved(Some(map[
        "tweet" := Obj(TweetRec(t.(contributionId := Some(c.id)))),
        "contribution" := Obj(ContributionRec(AddTweet(c, t.user.screenName,
                                                       Truthy(Get(ctx, "authorYouth")),
                                                       Truthy(Get(ctx, "authorPolicyMaker")))))]))
    case _ => Rejected
  }

  function CreateSpec(db: Tables): (r: RuleSpec<Item>)
    ensures NewRule(r).tests == [IsTruthy("isContribution")]
  {
    RuleSpec(CreateRule, [Key("isContribution")], ctx => Create(db, ctx))
  }

  function UpdateSpec(db: Tables): (r: RuleSpec<Item>)
    ensures NewRule(r).tests == [IsTruthy("contribution")]
  {
    RuleSpec(UpdateRule, [Key("contribution")], Update)
  }

  function FetchSpecs(db: Tables): (r: seq<RuleSpec<Item>>)
    ensures ConditionsParse(r)
  {
    [ParentSpec(db), ContributionSpec(db)]
  }

  function LookupSpecs(db: Tables): (r: seq<RuleSpec<Item>>)
    ensures ConditionsParse(r)
  {
    [HandleSpec(db), MentionsSpec(db)]
  }

  function WriteSpecs(db: Tables): (r: seq<RuleSpec<Item>>)
    ensures ConditionsParse(r)
  {
    [CreateSpec(db), UpdateSpec(db)]
  }

  /** The fifteen rules, in the order they are added. */
  function Specs(db: Tables): (r: seq<RuleSpec<Item>>)
    ensures ConditionsParse(r) && |r| == 15
  {
    var a, b, c, d, e, f := FetchSpecs(db), LookupSpecs(db), AuthorFlagSpecs(db), MentionFlagSpecs(db), TriadSpecs(db), WriteSpecs(db);
    ConditionsParseStages(a, b, c, d, e, f);
    a + b + c + d + e + f
  }

  /** `engine.run({ tweet })` with the older evaluator. */
  function Run(db: Tables, t: Tweet): Ctx
  {
    LegacyRunAll(Build(Specs(db)), Start(t))
  }

  /** `process(tweet)`: the final context's `contribution`. */
  function Process(db: Tables, t: Tweet): Value<Item>
  {
    Get(Run(db, t), "contribution")
  }

  /** `process(tweet)` over the rules built by `addRule` in an evaluator
      object. */
  method ProcessTweet(db: Tables, t: Tweet) returns (r: Value<Item>)
    ensures r == Process(db, t)
  {
    var ctx := LegacyEvaluate(Specs(db), Start(t));
    r := Get(ctx.fields, "contribution");
  }

  // ---------------------------------------------------------------------
  // What the rules promise, stated directly

  /** The contribution of the tweet's parent, when the parent and its
      contribution row are both stored. */
  function Linked(db: Tables, t: Tweet): Option<Contribution>
  {
    if t.parentId.Some? && t.parentId.value in db.tweets then
      var p := db.tweets[t.parentId.value];
      if p.contributionId.Some? && p.contributionId.value in db.contributions then Some(db.contributions[p.contributionId.value])
      else None
    else None
  }

  /** The author's `camp_id`; None when the author has no handle row or
      the row's camp is null. */
  function AuthorCamp(db: Tables, t: Tweet): Option<int>
  {
    if t.userId in db.handles then db.handles[t.userId] else None
  }

  /** The mentions make a triad with the author. */
  predicate Triad(db: Tables, t: Tweet)
  {
    var m := Mentioned(db, t.entities.userMentions);
    CampTriad(AuthorCamp(db, t), InCamp(m, PolicyMaker), InCamp(m, Youth), InCamp(m, Broker))
  }

  /** The contribution `process` resolves to and the tweet as saved. A
      reply to a tweet of a contribution counts in that contribution,
      whoever its author is. Any other tweet counts in a new contribution
      of its author's camp when the author and the stored mentioned
      handles form a triad. Otherwise `process` resolves `undefined`. */
  function Expected(db: Tables, t: Tweet): (Value<Item>, Tweet)
  {
    var camp := AuthorCamp(db, t);
    var youth, pm := camp == Some(Youth), camp == Some(PolicyMaker);
    match Linked(db, t)
    case Some(c) =>
      (Obj(ContributionRec(AddTweet(c, t.user.screenName, youth, pm))), t.(contributionId := Some(c.id)))
    case None =>
      if Triad(db, t) then
        (Obj(ContributionRec(AddTweet(Fresh(db.nextId, t.id, camp, pm, youth), t.user.screenName, youth, pm))),
         t.(contributionId := Some(db.nextId)))
      else (Undefined, t)
  }

  // ---------------------------------------------------------------------
  // The chain, stage by stage

  ghost predicate SameExcept(a: Ctx, b: Ctx, keys: set<string>)
  {
    forall k | k !in keys :: Get(a, k) == Get(b, k)
  }

  predicate Flag(ctx: Ctx, k: string)
  {
    Truthy(Get(ctx, k))
  }

  /** The older evaluator folds the rules to the same context as the newer
      one. */
  lemma RunAgrees(db: Tables, t: Tweet)
    ensures Run(db, t) == RunSpecs(Specs(db), Start(t))
  {
    LegacyRunAgrees(Build(Specs(db)), Start(t));
  }

  function LinkedValue(db: Tables, t: Tweet): Value<Item>
  {
    match Linked(db, t)
    case Some(c) => Obj(ContributionRec(c))
    case None => Undefined
  }

  lemma ParentStep(db: Tables, t: Tweet, ctx: Ctx)
    requires Get(ctx, "tweet") == Obj(TweetRec(t))
    ensures Apply(ParentSpec(db), ctx) ==
            if Truthy(FetchTweet(db, t.parentId)) then ctx["parent" := FetchTweet(db, t.parentId)] else ctx
  {
    GuardedStep(FetchParentRule, "tweet", ctx => ParentFetched(db, ctx), ctx => SetParent(db, ctx), ctx);
  }

  lemma ContributionStep(db: Tables, ctx: Ctx)
    ensures var p := Get(ctx, "parent");
            Apply(ContributionSpec(db), ctx) ==
              if p.Obj? && p.o.TweetRec? && Truthy(FetchContribution(db, p.o.tweet.contributionId))
              then ctx["contribution" := FetchContribution(db, p.o.tweet.contributionId)] else ctx
  {
    GuardedStep(FetchContributionRule, "parent",
                ctx => ContributionFetched(db, ctx), ctx => SetContribution(db, ctx), ctx);
  }

  /** The fetch rules find the parent's contribution and touch nothing but
      `parent` and `contribution`. */
  lemma FetchStage(db: Tables, t: Tweet)
    ensures var r := RunSpecs(FetchSpecs(db), Start(t));
            && Get(r, "tweet") == Obj(TweetRec(t))
            && Get(r, "contribution") == LinkedValue(db, t)
            && SameExcept(r, Start(t), {"parent", "contribution"})
  {
    var c0 := Start(t);
    assert FetchSpecs(db) == [ParentSpec(db)] + [ContributionSpec(db)];
    RunSpecsCons(ParentSpec(db), [ContributionSpec(db)], c0);
    ParentStep(db, t, c0);
    var c1 := Apply(ParentSpec(db), c0);
    RunSpecsOne(ContributionSpec(db), c1);
    ContributionStep(db, c1);
    FetchChain(db, t, c1, Apply(ContributionSpec(db), c1));
  }

  /** The parent rule, then the contribution rule, from the start context. */
  lemma FetchChain(db: Tables, t: Tweet, c1: Ctx, r: Ctx)
    requires c1 == if Truthy(FetchTweet(db, t.parentId)) then Start(t)["parent" := FetchTweet(db, t.parentId)] else Start(t)
    requires var p := Get(c1, "parent");
             r == if p.Obj? && p.o.TweetRec? && Truthy(FetchContribution(db, p.o.tweet.contributionId))
                  then c1["contribution" := FetchContribution(db, p.o.tweet.contributionId)] else c1
    ensures Get(r, "tweet") == Obj(TweetRec(t))
    ensures Get(r, "contribution") == LinkedValue(db, t)
    ensures SameExcept(r, Start(t), {"parent", "contribution"})
  {
  }

  function AuthorValue(db: Tables, t: Tweet): Value<Item>
  {
    if t.userId in db.handles then Obj(HandleRec(t.userId, db.handles[t.userId])) else Undefined
  }

  lemma HandleStep(db: Tables, t: Tweet, ctx: Ctx)
    requires Get(ctx, "tweet") == Obj(TweetRec(t))
    ensures Apply(HandleSpec(db), ctx) ==
            if t.userId in db.handles then ctx["handle" := AuthorValue(db, t)] else ctx
  {
    GuardedStep(FetchHandleRule, "tweet",
                ctx => HandleFetched(db, ctx), ctx => SetHandle(db, ctx), ctx);
  }

  lemma MentionsStep(db: Tables, t: Tweet, ctx: Ctx)
    requires Get(ctx, "tweet") == Obj(TweetRec(t))
    ensures var m := Mentioned(db, t.entities.userMentions);
            Apply(MentionsSpec(db), ctx) ==
              if !Truthy(Get(ctx, "contribution")) && |m| > 0 then ctx["mentions" := Obj(HandlesRec(m))] else ctx
  {
    var rule := NewRule(MentionsSpec(db));
    if !Truthy(Get(ctx, "contribution")) {
      assert Holds(rule.tests[0], ctx) && Holds(rule.tests[1], ctx);
      StepOnMatch(rule, ctx);
      var m := Mentioned(db, t.entities.userMentions);
      if |m| > 0 {
        MergeOne(ctx, "mentions", Obj(HandlesRec(m)));
      }
    } else {
      StepWithoutMatch(rule, ctx, 1);
    }
  }

  /** The author's handle row is fetched when there is one; the mentioned
      handles are fetched only when no contribution was found, and only
      when at least one of them is stored. */
  lemma LookupStage(db: Tables, t: Tweet, ctx: Ctx)
    requires Get(ctx, "tweet") == Obj(TweetRec(t))
    requires Get(ctx, "handle") == Undefined && Get(ctx, "mentions") == Undefined
    ensures var r := RunSpecs(LookupSpecs(db), ctx);
            var m := Mentioned(db, t.entities.userMentions);
            && Get(r, "handle") == AuthorValue(db, t)
            && Get(r, "mentions") == (if !Truthy(Get(ctx, "contribution")) && |m| > 0 then Obj(HandlesRec(m)) else Undefined)
            && SameExcept(r, ctx, {"handle", "mentions"})
  {
    assert LookupSpecs(db) == [HandleSpec(db)] + [MentionsSpec(db)];
    RunSpecsCons(HandleSpec(db), [MentionsSpec(db)], ctx);
    HandleStep(db, t, ctx);
    var c1 := Apply(HandleSpec(db), ctx);
    RunSpecsOne(MentionsSpec(db), c1);
    assert Get(c1, "tweet") == Obj(TweetRec(t));
    assert Get(c1, "contribution") == Get(ctx, "contribution");
    MentionsStep(db, t, c1);
    var m := Mentioned(db, t.entities.userMentions);
    LookupChain(ctx, c1, Apply(MentionsSpec(db), c1), t.userId in db.handles, AuthorValue(db, t),
                !Truthy(Get(ctx, "contribution")) && |m| > 0, Obj(HandlesRec(m)));
  }

  /** The handle rule, then the mentions rule, each setting its own
      property or leaving the context as it is. */
  lemma LookupChain(ctx: Ctx, c1: Ctx, r: Ctx, b1: bool, v1: Value<Item>, b2: bool, v2: Value<Item>)
    requires Get(ctx, "handle") == Undefined && Get(ctx, "mentions") == Undefined
    requires !b1 ==> v1 == Undefined
    requires c1 == if b1 then ctx["handle" := v1] else ctx
    requires r == if b2 then c1["mentions" := v2] else c1
    ensures Get(r, "handle") == v1
    ensures Get(r, "mentions") == if b2 then v2 else Undefined
    ensures SameExcept(r, ctx, {"handle", "mentions"})
  {
  }

  /** The author's handle row is in `camp`. */
  predicate AuthorIn(ctx: Ctx, camp: int)
  {
    var h := Get(ctx, "handle");
    h.Obj? && h.o.HandleRec? && h.o.campId == Some(camp)
  }

  /** Three rules in a row, each setting its own flag to true or leaving
      the context as it is. */
  lemma ThreeFlags(ctx: Ctx, c1: Ctx, c2: Ctx, r: Ctx, f1: string, f2: string, f3: string, b1: bool, b2: bool, b3: bool)
    requires f1 != f2 && f1 != f3 && f2 != f3
    requires c1 == (if b1 then ctx[f1 := Bool(true)] else ctx)
    requires c2 == (if b2 then c1[f2 := Bool(true)] else c1)
    requires r == (if b3 then c2[f3 := Bool(true)] else c2)
    ensures Get(r, f1) == (if b1 then Bool(true) else Get(ctx, f1))
    ensures Get(r, f2) == (if b2 then Bool(true) else Get(ctx, f2))
    ensures Get(r, f3) == (if b3 then Bool(true) else Get(ctx, f3))
    ensures SameExcept(r, ctx, {f1, f2, f3})
  {
  }

  lemma AuthorFlagStep(description: string, flag: string, camp: int, ctx: Ctx)
    requires flag != "handle"
    ensures Apply(AuthorFlagSpec(description, flag, camp), ctx) ==
            if AuthorIn(ctx, camp) then ctx[flag := Bool(true)] else ctx
    ensures forall c :: AuthorIn(Apply(AuthorFlagSpec(description, flag, camp), ctx), c) == AuthorIn(ctx, c)
  {
    GuardedStep(description, "handle", ctx => AuthorCampIs(camp, ctx), ctx => SetFlag(flag), ctx);
  }

  /** Each author flag is set to true exactly when the handle is of that
      camp; no author flag is ever set to false. */
  lemma AuthorFlagsStage(db: Tables, ctx: Ctx)
    ensures var r := RunSpecs(AuthorFlagSpecs(db), ctx);
            && Get(r, "authorBroker") == (if AuthorIn(ctx, Broker) then Bool(true) else Get(ctx, "authorBroker"))
            && Get(r, "authorPolicyMaker") == (if AuthorIn(ctx, PolicyMaker) then Bool(true) else Get(ctx, "authorPolicyMaker"))
            && Get(r, "authorYouth") == (if AuthorIn(ctx, Youth) then Bool(true) else Get(ctx, "authorYouth"))
            && SameExcept(r, ctx, {"authorBroker", "authorPolicyMaker", "authorYouth"})
  {
    var specs := AuthorFlagSpecs(db);
    RunSpecsThree(specs, ctx);
    AuthorFlagStep(AuthorBrokerRule, "authorBroker", Broker, ctx);
    var c1 := Apply(specs[0], ctx);
    AuthorFlagStep(AuthorPolicyMakerRule, "authorPolicyMaker", PolicyMaker, c1);
    var c2 := Apply(specs[1], c1);
    AuthorFlagStep(AuthorYouthRule, "authorYouth", Youth, c2);
    var r := Apply(specs[2], c2);
    ThreeFlags(ctx, c1, c2, r, "authorBroker", "authorPolicyMaker", "authorYouth",
               AuthorIn(ctx, Broker), AuthorIn(ctx, PolicyMaker), AuthorIn(ctx, Youth));
  }

  /** The fetched mentioned handles include one of `camp`. */
  predicate MentionedIn(ctx: Ctx, camp: int)
  {
    var m := Get(ctx, "mentions");
    m.Obj? && m.o.HandlesRec? && InCamp(m.o.handles, camp)
  }

  lemma MentionFlagStep(description: string, flag: string, camp: int, ctx: Ctx)
    requires flag != "mentions"
    ensures Apply(MentionFlagSpec(description, flag, camp), ctx) ==
            if MentionedIn(ctx, camp) then ctx[flag := Bool(true)] else ctx
    ensures forall c :: MentionedIn(Apply(MentionFlagSpec(description, flag, camp), ctx), c) == MentionedIn(ctx, c)
  {
    GuardedStep(description, "mentions", ctx => MentionCampIs(camp, ctx), ctx => SetFlag(flag), ctx);
  }

  /** Each mention flag is set to true exactly when a fetched mentioned
      handle is of that camp. */
  lemma MentionFlagsStage(db: Tables, ctx: Ctx)
    ensures var r := RunSpecs(MentionFlagSpecs(db), ctx);
            && Get(r, "mentionsBroker") == (if MentionedIn(ctx, Broker) then Bool(true) else Get(ctx, "mentionsBroker"))
            && Get(r, "mentionsPolicyMaker") == (if MentionedIn(ctx, PolicyMaker) then Bool(true) else Get(ctx, "mentionsPolicyMaker"))
            && Get(r, "mentionsYouth") == (if MentionedIn(ctx, Youth) then Bool(true) else Get(ctx, "mentionsYouth"))
            && SameExcept(r, ctx, {"mentionsBroker", "mentionsPolicyMaker", "mentionsYouth"})
  {
    var specs := MentionFlagSpecs(db);
    RunSpecsThree(specs, ctx);
    MentionFlagStep(MentionsBrokerRule, "mentionsBroker", Broker, ctx);
    var c1 := Apply(specs[0], ctx);
    MentionFlagStep(MentionsPolicyMakerRule, "mentionsPolicyMaker", PolicyMaker, c1);
    var c2 := Apply(specs[1], c1);
    MentionFlagStep(MentionsYouthRule, "mentionsYouth", Youth, c2);
    var r := Apply(specs[2], c2);
    ThreeFlags(ctx, c1, c2, r, "mentionsBroker", "mentionsPolicyMaker", "mentionsYouth",
               MentionedIn(ctx, Broker), MentionedIn(ctx, PolicyMaker), MentionedIn(ctx, Youth));
  }

  /** One of the three author/mention triads, read from the flags. */
  predicate TriadFlags(ctx: Ctx)
  {
    || (Flag(ctx, "authorBroker") && Flag(ctx, "mentionsPolicyMaker") && Flag(ctx, "mentionsYouth"))
    || (Flag(ctx, "authorPolicyMaker") && Flag(ctx, "mentionsYouth") && Flag(ctx, "mentionsBroker"))
    || (Flag(ctx, "authorYouth") && Flag(ctx, "mentionsPolicyMaker") && Flag(ctx, "mentionsBroker"))
  }

  lemma TriadStep(description: string, author: string, first: string, second: string, ctx: Ctx)
    requires PlainKey(author) && PlainKey(first) && PlainKey(second)
    ensures Apply(TriadSpec(description, author, first, second), ctx) ==
            if Flag(ctx, author) && Flag(ctx, first) && Flag(ctx, second) then ctx["isContribution" := Bool(true)] else ctx
  {
    var tests: seq<Test<Item>> := [IsTruthy(author), IsTruthy(first), IsTruthy(second)];
    assert Match(tests, ctx).holds <==> Holds(tests[0], ctx) && Holds(tests[1], ctx) && Holds(tests[2], ctx);
  }

  /** Setting `isContribution` changes no flag a triad reads. */
  lemma TriadFlagsKept(before: Ctx, after: Ctx)
    requires after == before || after == before["isContribution" := Bool(true)]
    ensures TriadFlags(after) == TriadFlags(before)
    ensures SameExcept(after, before, {"isContribution"})
    ensures Get(after, "isContribution") == Get(before, "isContribution") || Get(after, "isContribution") == Bool(true)
  {
  }

  lemma TriadSteps(db: Tables, specs: seq<RuleSpec<Item>>, ctx: Ctx, c1: Ctx, c2: Ctx, r: Ctx)
    requires specs == TriadSpecs(db)
    requires c1 == Apply(specs[0], ctx) && c2 == Apply(specs[1], c1) && r == Apply(specs[2], c2)
    ensures c1 == if Flag(ctx, "authorBroker") && Flag(ctx, "mentionsPolicyMaker") && Flag(ctx, "mentionsYouth")
                  then ctx["isContribution" := Bool(true)] else ctx
    ensures c2 == if Flag(c1, "authorPolicyMaker") && Flag(c1, "mentionsYouth") && Flag(c1, "mentionsBroker")
                  then c1["isContribution" := Bool(true)] else c1
    ensures r == if Flag(c2, "authorYouth") && Flag(c2, "mentionsPolicyMaker") && Flag(c2, "mentionsBroker")
                 then c2["isContribution" := Bool(true)] else c2
  {
    FlagNamesArePlain();
    TriadStep(BrokerTriadRule,
              "authorBroker", "mentionsPolicyMaker", "mentionsYouth", ctx);
    TriadStep(PolicyMakerTriadRule,
              "authorPolicyMaker", "mentionsYouth", "mentionsBroker", c1);
    TriadStep(YouthTriadRule,
              "authorYouth", "mentionsPolicyMaker", "mentionsBroker", c2);
  }

  /** `isContribution` is set exactly when a triad holds. */
  lemma TriadStage(db: Tables, ctx: Ctx)
    ensures var r := RunSpecs(TriadSpecs(db), ctx);
            && Get(r, "isContribution") == (if TriadFlags(ctx) then Bool(true) else Get(ctx, "isContribution"))
            && SameExcept(r, ctx, {"isContribution"})
  {
    var specs := TriadSpecs(db);
    RunSpecsThree(specs, ctx);
    var c1 := Apply(specs[0], ctx);
    var c2 := Apply(specs[1], c1);
    var r := Apply(specs[2], c2);
    TriadSteps(db, specs, ctx, c1, c2, r);
    TriadFlagsKept(ctx, c1);
    TriadFlagsKept(c1, c2);
    TriadFlagsKept(c2, r);
  }

  lemma CreateStep(db: Tables, t: Tweet, ctx: Ctx)
    requires Get(ctx, "tweet") == Obj(TweetRec(t))
    ensures Apply(CreateSpec(db), ctx) ==
            if Flag(ctx, "isContribution") then
              ctx["contribution" := Obj(ContributionRec(
                    Fresh(db.nextId, t.id, HandleCampOrNull(Get(ctx, "handle")),
                          Get(ctx, "authorPolicyMaker") == Bool(true), Get(ctx, "authorYouth") == Bool(true))))]
            else ctx
  {
  }

  lemma UpdateStep(db: Tables, ctx: Ctx)
    ensures var t := Get(ctx, "tweet");
            var c := Get(ctx, "contribution");
            Apply(UpdateSpec(db), ctx) ==
              if t.Obj? && t.o.TweetRec? && c.Obj? && c.o.ContributionRec? then
                ctx["tweet" := Obj(TweetRec(t.o.tweet.(contributionId := Some(c.o.contribution.id))))]
                   ["contribution" := Obj(ContributionRec(AddTweet(c.o.contribution, t.o.tweet.user.screenName,
                                                                   Flag(ctx, "authorYouth"), Flag(ctx, "authorPolicyMaker"))))]
              else ctx
  {
    var r := Update(ctx);
    if r.Resolved? {
      assert ctx + r.value.value == ctx["tweet" := r.value.value["tweet"]]["contribution" := r.value.value["contribution"]];
    }
  }

  /** Create, then count: a triad starts a new contribution with no
      tweets and no contributors; then whatever contribution the context
      holds counts the tweet under the tweet's own screen name. */
  lemma WriteStage(db: Tables, t: Tweet, ctx: Ctx)
    requires Get(ctx, "tweet") == Obj(TweetRec(t))
    ensures var r := RunSpecs(WriteSpecs(db), ctx);
            var c := if Flag(ctx, "isContribution")
                     then Obj(ContributionRec(Fresh(db.nextId, t.id, HandleCampOrNull(Get(ctx, "handle")),
                                                    Get(ctx, "authorPolicyMaker") == Bool(true),
                                                    Get(ctx, "authorYouth") == Bool(true))))
                     else Get(ctx, "contribution");
            if c.Obj? && c.o.ContributionRec? then
              && Get(r, "contribution") == Obj(ContributionRec(AddTweet(c.o.contribution, t.user.screenName,
                                                                        Flag(ctx, "authorYouth"), Flag(ctx, "authorPolicyMaker"))))
              && Get(r, "tweet") == Obj(TweetRec(t.(contributionId := Some(c.o.contribution.id))))
            else
              Get(r, "contribution") == c && Get(r, "tweet") == Obj(TweetRec(t))
  {
    var specs := WriteSpecs(db);
    assert specs == [CreateSpec(db)] + [UpdateSpec(db)];
    RunSpecsCons(CreateSpec(db), [UpdateSpec(db)], ctx);
    CreateStep(db, t, ctx);
    var c1 := Apply(CreateSpec(db), ctx);
    RunSpecsOne(UpdateSpec(db), c1);
    UpdateStep(db, c1);
  }

  lemma RunInStages(db: Tables, t: Tweet)
    ensures Run(db, t) ==
            RunSpecs(WriteSpecs(db), RunSpecs(TriadSpecs(db), RunSpecs(MentionFlagSpecs(db), RunSpecs(AuthorFlagSpecs(db),
              RunSpecs(LookupSpecs(db), RunSpecs(FetchSpecs(db), Start(t)))))))
  {
    RunAgrees(db, t);
    RunSpecsStages(FetchSpecs(db), LookupSpecs(db), AuthorFlagSpecs(db), MentionFlagSpecs(db), TriadSpecs(db), WriteSpecs(db), Start(t));
  }

  /** None of the properties the flag rules write is set. */
  predicate Unflagged(ctx: Ctx)
  {
    && Get(ctx, "isContribution") == Undefined
    && Get(ctx, "authorBroker") == Undefined && Get(ctx, "authorPolicyMaker") == Undefined
    && Get(ctx, "authorYouth") == Undefined && Get(ctx, "mentionsBroker") == Undefined
    && Get(ctx, "mentionsPolicyMaker") == Undefined && Get(ctx, "mentionsYouth") == Undefined
  }

  lemma FromStart(ctx: Ctx, t: Tweet, keys: set<string>)
    requires SameExcept(ctx, Start(t), keys)
    requires keys !! {"isContribution", "authorBroker", "authorPolicyMaker", "authorYouth",
                      "mentionsBroker", "mentionsPolicyMaker", "mentionsYouth", "handle", "mentions"}
    ensures Unflagged(ctx) && Get(ctx, "handle") == Undefined && Get(ctx, "mentions") == Undefined
  {
    assert Get(ctx, "handle") == Get(Start(t), "handle");
    assert Get(ctx, "mentions") == Get(Start(t), "mentions");
    assert Get(ctx, "isContribution") == Get(Start(t), "isContribution");
    assert Get(ctx, "authorBroker") == Get(Start(t), "authorBroker");
    assert Get(ctx, "authorPolicyMaker") == Get(Start(t), "authorPolicyMaker");
    assert Get(ctx, "authorYouth") == Get(Start(t), "authorYouth");
    assert Get(ctx, "mentionsBroker") == Get(Start(t), "mentionsBroker");
    assert Get(ctx, "mentionsPolicyMaker") == Get(Start(t), "mentionsPolicyMaker");
    assert Get(ctx, "mentionsYouth") == Get(Start(t), "mentionsYouth");
  }

  /** The context after the fetch rules, named. */
  lemma AfterFetch(db: Tables, t: Tweet) returns (ctx: Ctx)
    ensures ctx == RunSpecs(FetchSpecs(db), Start(t))
    ensures Get(ctx, "tweet") == Obj(TweetRec(t))
    ensures Get(ctx, "contribution") == LinkedValue(db, t)
    ensures Get(ctx, "handle") == Undefined && Get(ctx, "mentions") == Undefined
    ensures Unflagged(ctx)
  {
    FetchStage(db, t);
    ctx := RunSpecs(FetchSpecs(db), Start(t));
    FromStart(ctx, t, {"parent", "contribution"});
  }

  /** The lookup stage's effect, read from an unflagged context. */
  lemma LookupKept(before: Ctx, after: Ctx)
    requires Unflagged(before)
    requires SameExcept(after, before, {"handle", "mentions"})
    ensures Unflagged(after)
    ensures Get(after, "tweet") == Get(before, "tweet") && Get(after, "contribution") == Get(before, "contribution")
  {
    assert Get(after, "tweet") == Get(before, "tweet");
    assert Get(after, "contribution") == Get(before, "contribution");
    assert Get(after, "isContribution") == Get(before, "isContribution");
    assert Get(after, "authorBroker") == Get(before, "authorBroker");
    assert Get(after, "authorPolicyMaker") == Get(before, "authorPolicyMaker");
    assert Get(after, "authorYouth") == Get(before, "authorYouth");
    assert Get(after, "mentionsBroker") == Get(before, "mentionsBroker");
    assert Get(after, "mentionsPolicyMaker") == Get(before, "mentionsPolicyMaker");
    assert Get(after, "mentionsYouth") == Get(before, "mentionsYouth");
  }

  /** The stored mentioned handles when they were fetched: the mentions of
      a tweet with no contribution found, if any of them is stored. */
  function MentionsValue(db: Tables, t: Tweet): Value<Item>
  {
    var m := Mentioned(db, t.entities.userMentions);
    if Linked(db, t).None? && |m| > 0 then Obj(HandlesRec(m)) else Undefined
  }

  /** The context after the fetch and lookup rules, named. */
  lemma AfterLookup(db: Tables, t: Tweet) returns (ctx: Ctx)
    ensures ctx == RunSpecs(LookupSpecs(db), RunSpecs(FetchSpecs(db), Start(t)))
    ensures Get(ctx, "tweet") == Obj(TweetRec(t))
    ensures Get(ctx, "contribution") == LinkedValue(db, t)
    ensures Get(ctx, "handle") == AuthorValue(db, t)
    ensures Get(ctx, "mentions") == MentionsValue(db, t)
    ensures Unflagged(ctx)
  {
    var c1 := AfterFetch(db, t);
    LookupStage(db, t, c1);
    ctx := RunSpecs(LookupSpecs(db), c1);
    LookupKept(c1, ctx);
  }

  /** The author stage's effect, read from an unflagged context. */
  lemma AuthorFlagsSet(ctx: Ctx, r: Ctx)
    requires Unflagged(ctx)
    requires && Get(r, "authorBroker") == (if AuthorIn(ctx, Broker) then Bool(true) else Get(ctx, "authorBroker"))
             && Get(r, "authorPolicyMaker") == (if AuthorIn(ctx, PolicyMaker) then Bool(true) else Get(ctx, "authorPolicyMaker"))
             && Get(r, "authorYouth") == (if AuthorIn(ctx, Youth) then Bool(true) else Get(ctx, "authorYouth"))
             && SameExcept(r, ctx, {"authorBroker", "authorPolicyMaker", "authorYouth"})
    ensures Get(r, "tweet") == Get(ctx, "tweet") && Get(r, "contribution") == Get(ctx, "contribution")
    ensures Get(r, "handle") == Get(ctx, "handle") && Get(r, "mentions") == Get(ctx, "mentions")
    ensures Get(r, "isContribution") == Undefined
    ensures Get(r, "mentionsBroker") == Undefined && Get(r, "mentionsPolicyMaker") == Undefined
    ensures Get(r, "mentionsYouth") == Undefined
  {
    assert Get(r, "tweet") == Get(ctx, "tweet");
    assert Get(r, "contribution") == Get(ctx, "contribution");
    assert Get(r, "handle") == Get(ctx, "handle");
    assert Get(r, "mentions") == Get(ctx, "mentions");
    assert Get(r, "isContribution") == Get(ctx, "isContribution");
    assert Get(r, "mentionsBroker") == Get(ctx, "mentionsBroker");
    assert Get(r, "mentionsPolicyMaker") == Get(ctx, "mentionsPolicyMaker");
    assert Get(r, "mentionsYouth") == Get(ctx, "mentionsYouth");
  }

  /** The mention stage's effect, read from the context before the author
      stage. */
  lemma MentionFlagsSet(before: Ctx, r: Ctx)
    requires Get(before, "mentionsBroker") == Undefined && Get(before, "mentionsPolicyMaker") == Undefined
    requires Get(before, "mentionsYouth") == Undefined
    requires && Get(r, "mentionsBroker") == (if MentionedIn(before, Broker) then Bool(true) else Get(before, "mentionsBroker"))
             && Get(r, "mentionsPolicyMaker") == (if MentionedIn(before, PolicyMaker) then Bool(true) else Get(before, "mentionsPolicyMaker"))
             && Get(r, "mentionsYouth") == (if MentionedIn(before, Youth) then Bool(true) else Get(before, "mentionsYouth"))
             && SameExcept(r, before, {"mentionsBroker", "mentionsPolicyMaker", "mentionsYouth"})
    ensures Flag(r, "mentionsBroker") == MentionedIn(before, Broker)
    ensures Flag(r, "mentionsPolicyMaker") == MentionedIn(before, PolicyMaker)
    ensures Flag(r, "mentionsYouth") == MentionedIn(before, Youth)
    ensures Get(r, "tweet") == Get(before, "tweet") && Get(r, "contribution") == Get(before, "contribution")
    ensures Get(r, "handle") == Get(before, "handle") && Get(r, "isContribution") == Get(before, "isContribution")
    ensures Get(r, "authorBroker") == Get(before, "authorBroker")
    ensures Get(r, "authorPolicyMaker") == Get(before, "authorPolicyMaker")
    ensures Get(r, "authorYouth") == Get(before, "authorYouth")
  {
    assert Get(r, "tweet") == Get(before, "tweet");
    assert Get(r, "contribution") == Get(before, "contribution");
    assert Get(r, "handle") == Get(before, "handle");
    assert Get(r, "isContribution") == Get(before, "isContribution");
    assert Get(r, "authorBroker") == Get(before, "authorBroker");
    assert Get(r, "authorPolicyMaker") == Get(before, "authorPolicyMaker");
    assert Get(r, "authorYouth") == Get(before, "authorYouth");
  }

  /** The author and mention rules set each flag to true exactly when the
      handle, or a fetched mentioned handle, is of that camp. */
  lemma AuthorMention(db: Tables, ctx: Ctx)
    requires Unflagged(ctx)
    ensures var r := RunSpecs(MentionFlagSpecs(db), RunSpecs(AuthorFlagSpecs(db), ctx));
            && Get(r, "tweet") == Get(ctx, "tweet")
            && Get(r, "contribution") == Get(ctx, "contribution")
            && Get(r, "handle") == Get(ctx, "handle")
            && Get(r, "isContribution") == Undefined
            && Flag(r, "authorBroker") == AuthorIn(ctx, Broker)
            && Flag(r, "authorPolicyMaker") == AuthorIn(ctx, PolicyMaker)
            && Flag(r, "authorYouth") == AuthorIn(ctx, Youth)
            && Get(r, "authorPolicyMaker") == (if AuthorIn(ctx, PolicyMaker) then Bool(true) else Undefined)
            && Get(r, "authorYouth") == (if AuthorIn(ctx, Youth) then Bool(true) else Undefined)
            && Flag(r, "mentionsBroker") == MentionedIn(ctx, Broker)
            && Flag(r, "mentionsPolicyMaker") == MentionedIn(ctx, PolicyMaker)
            && Flag(r, "mentionsYouth") == MentionedIn(ctx, Youth)
  {
    AuthorFlagsStage(db, ctx);
    var c3 := RunSpecs(AuthorFlagSpecs(db), ctx);
    AuthorFlagsSet(ctx, c3);
    MentionFlagsStage(db, c3);
    MentionFlagsSet(c3, RunSpecs(MentionFlagSpecs(db), c3));
  }

  /** The triad rules only ever set `isContribution`. */
  lemma TriadKeeps(db: Tables, ctx: Ctx)
    ensures var r := RunSpecs(TriadSpecs(db), ctx);
            && Get(r, "isContribution") == (if TriadFlags(ctx) then Bool(true) else Get(ctx, "isContribution"))
            && Get(r, "tweet") == Get(ctx, "tweet")
            && Get(r, "contribution") == Get(ctx, "contribution")
            && Get(r, "handle") == Get(ctx, "handle")
            && Get(r, "authorYouth") == Get(ctx, "authorYouth")
            && Get(r, "authorPolicyMaker") == Get(ctx, "authorPolicyMaker")
  {
    TriadStage(db, ctx);
    KeptOutside(RunSpecs(TriadSpecs(db), ctx), ctx);
  }

  /** What a context keeps when only `isContribution` may change. */
  lemma KeptOutside(r: Ctx, ctx: Ctx)
    requires SameExcept(r, ctx, {"isContribution"})
    ensures Get(r, "tweet") == Get(ctx, "tweet")
    ensures Get(r, "contribution") == Get(ctx, "contribution")
    ensures Get(r, "handle") == Get(ctx, "handle")
    ensures Get(r, "authorYouth") == Get(ctx, "authorYouth")
    ensures Get(r, "authorPolicyMaker") == Get(ctx, "authorPolicyMaker")
  {
  }

  /** From an unflagged context, the flag rules set `isContribution`
      exactly on a camp triad of the handle and the fetched mentions. */
  lemma FlagStages(db: Tables, ctx: Ctx)
    requires Unflagged(ctx)
    ensures var r := RunSpecs(TriadSpecs(db), RunSpecs(MentionFlagSpecs(db), RunSpecs(AuthorFlagSpecs(db), ctx)));
            var h := Get(ctx, "handle");
            var author := if h.Obj? && h.o.HandleRec? then h.o.campId else None;
            && Get(r, "tweet") == Get(ctx, "tweet")
            && Get(r, "contribution") == Get(ctx, "contribution")
            && Get(r, "handle") == Get(ctx, "handle")
            && (Flag(r, "isContribution") <==>
                  CampTriad(author, MentionedIn(ctx, PolicyMaker), MentionedIn(ctx, Youth), MentionedIn(ctx, Broker)))
            && Get(r, "authorPolicyMaker") == (if AuthorIn(ctx, PolicyMaker) then Bool(true) else Undefined)
            && Get(r, "authorYouth") == (if AuthorIn(ctx, Youth) then Bool(true) else Undefined)
  {
    AuthorMention(db, ctx);
    var c4 := RunSpecs(MentionFlagSpecs(db), RunSpecs(AuthorFlagSpecs(db), ctx));
    TriadKeeps(db, c4);
  }

  /** The flags, read from the tables. */
  lemma FlagsFromTables(db: Tables, t: Tweet, ctx: Ctx)
    requires Get(ctx, "handle") == AuthorValue(db, t)
    requires Get(ctx, "mentions") == MentionsValue(db, t)
    ensures var h := Get(ctx, "handle");
            (if h.Obj? && h.o.HandleRec? then h.o.campId else None) == AuthorCamp(db, t)
    ensures forall camp :: AuthorIn(ctx, camp) <==> AuthorCamp(db, t) == Some(camp)
    ensures var m := Mentioned(db, t.entities.userMentions);
            forall camp :: MentionedIn(ctx, camp) <==> Linked(db, t).None? && InCamp(m, camp)
  {
  }

  /** The context the two write rules see. */
  lemma BeforeWrite(db: Tables, t: Tweet) returns (ctx: Ctx)
    ensures Run(db, t) == RunSpecs(WriteSpecs(db), ctx)
    ensures Get(ctx, "tweet") == Obj(TweetRec(t))
    ensures Get(ctx, "contribution") == LinkedValue(db, t)
    ensures Get(ctx, "handle") == AuthorValue(db, t)
    ensures Flag(ctx, "isContribution") <==> Linked(db, t).None? && Triad(db, t)
    ensures var camp := AuthorCamp(db, t);
            && Get(ctx, "authorPolicyMaker") == (if camp == Some(PolicyMaker) then Bool(true) else Undefined)
            && Get(ctx, "authorYouth") == (if camp == Some(Youth) then Bool(true) else Undefined)
  {
    var c2 := AfterLookup(db, t);
    FlagsFromTables(db, t, c2);
    FlagStages(db, c2);
    RunInStages(db, t);
    ctx := RunSpecs(TriadSpecs(db), RunSpecs(MentionFlagSpecs(db), RunSpecs(AuthorFlagSpecs(db), c2)));
  }

  /** The write rules, from the context the flag rules leave. */
  lemma WriteOutcome(db: Tables, t: Tweet, ctx: Ctx)
    requires Get(ctx, "tweet") == Obj(TweetRec(t))
    requires Get(ctx, "contribution") == LinkedValue(db, t)
    requires Get(ctx, "handle") == AuthorValue(db, t)
    requires Flag(ctx, "isContribution") <==> Linked(db, t).None? && Triad(db, t)
    requires var camp := AuthorCamp(db, t);
             && Get(ctx, "authorPolicyMaker") == (if camp == Some(PolicyMaker) then Bool(true) else Undefined)
             && Get(ctx, "authorYouth") == (if camp == Some(Youth) then Bool(true) else Undefined)
    ensures var r := RunSpecs(WriteSpecs(db), ctx);
            Get(r, "contribution") == Expected(db, t).0 && Get(r, "tweet") == Obj(TweetRec(Expected(db, t).1))
  {
    WriteStage(db, t, ctx);
    if Linked(db, t).Some? {
      ExpectedLinked(db, t);
    } else if Triad(db, t) {
      ExpectedStarted(db, t);
    } else {
      ExpectedNothing(db, t);
    }
  }

  lemma ExpectedLinked(db: Tables, t: Tweet)
    requires Linked(db, t).Some?
    ensures var camp := AuthorCamp(db, t);
            var c := Linked(db, t).value;
            Expected(db, t) == (Obj(ContributionRec(AddTweet(c, t.user.screenName, camp == Some(Youth), camp == Some(PolicyMaker)))),
                                t.(contributionId := Some(c.id)))
  {
  }

  lemma ExpectedStarted(db: Tables, t: Tweet)
    requires Linked(db, t).None? && Triad(db, t)
    ensures var camp := AuthorCamp(db, t);
            var youth, pm := camp == Some(Youth), camp == Some(PolicyMaker);
            Expected(db, t) == (Obj(ContributionRec(AddTweet(Fresh(db.nextId, t.id, camp, pm, youth), t.user.screenName, youth, pm))),
                                t.(contributionId := Some(db.nextId)))
  {
  }

  lemma ExpectedNothing(db: Tables, t: Tweet)
    requires Linked(db, t).None? && !Triad(db, t)
    ensures Expected(db, t) == (Undefined, t)
  {
  }

  /** `process` does what `Expected` says. */
  lemma ProcessOutcome(db: Tables, t: Tweet)
    ensures Process(db, t) == Expected(db, t).0
    ensures Get(Run(db, t), "tweet") == Obj(TweetRec(Expected(db, t).1))
  {
    var ctx := BeforeWrite(db, t);
    WriteOutcome(db, t, ctx);
  }

  // ---------------------------------------------------------------------
  // Consequences

  /** The update runs right after the creation, so a contribution started
      by a tweet leaves `process` with that one tweet and its author as
      the only contributor, under the next id and the author's camp. */
  lemma StartedContribution(db: Tables, t: Tweet)
    requires Linked(db, t).None? && Triad(db, t)
    ensures var r := Process(db, t);
            && r.Obj? && r.o.ContributionRec?
            && r.o.contribution.id == db.nextId && r.o.contribution.tweetId == t.id
            && r.o.contribution.campId == AuthorCamp(db, t)
            && r.o.contribution.tweets == 1 && r.o.contribution.contributors == [t.user.screenName]
  {
    ProcessOutcome(db, t);
    var camp := AuthorCamp(db, t);
    FirstTweet(db.nextId, t.id, camp, t.user.screenName, camp == Some(Youth), camp == Some(PolicyMaker));
  }

  /** A reply to a tweet of a contribution is counted even when its author
      has no handle row: one more tweet, the author listed, no flag
      changed. */
  lemma UnknownAuthorCounted(db: Tables, t: Tweet)
    requires Linked(db, t).Some? && t.userId !in db.handles
    ensures Process(db, t) == Obj(ContributionRec(AddTweet(Linked(db, t).value, t.user.screenName, false, false)))
  {
    ExpectedUnknownAuthor(db, t);
    ProcessOutcome(db, t);
  }

  lemma ExpectedUnknownAuthor(db: Tables, t: Tweet)
    requires Linked(db, t).Some? && t.userId !in db.handles
    ensures Expected(db, t).0 == Obj(ContributionRec(AddTweet(Linked(db, t).value, t.user.screenName, false, false)))
  {
  }

  /** When none of the mentioned ids is a stored handle, the fetch rejects,
      no mention flag is set, and a tweet outside any contribution starts
      none. */
  lemma NoStoredMentionNoContribution(db: Tables, t: Tweet)
    requires Linked(db, t).None?
    requires forall i | 0 <= i < |t.entities.userMentions| :: t.entities.userMentions[i].id !in db.handles
    ensures Process(db, t) == Undefined
  {
    ProcessOutcome(db, t);
    var m := Mentioned(db, t.entities.userMentions);
    assert m == map[];
  }
}
