# Dashboard API tweet pipeline: a Dafny model

This project models the tweet-classification core of the dashboard API:
- the rule evaluator that folds an ordered list of rules over a context object, in its newer and older versions;
- the two contribution detectors built on it, with the in-memory camp registry of handles;
- the two topic matchers;
- the raw-tweet transform;
- the streaming service: watch-list seeding, stream control calls, the per-tweet pipeline and broadcast rooms;
- cursor paging of the Twitter REST client;
- the older Twitter plugin with its `stalled` reconnect loop;
- the handle list-sync rules;
- the settings store with its upsert and codec;
- the relation-flattening serializer and the base schema of the database models.

Each source file is one Dafny module:

| module | file |
|---|---|
| `Js` | JavaScript values, truthiness, settled promises, `_.uniq`, ASCII lower-casing, decimal integers (shared) |
| `Records` | camp ids, tweet and contribution rows, the contribution update (shared) |
| `Evaluator` | server/modules/contribution/evaluator.js |
| `LegacyEvaluator` | server/services/contribution/evaluator.js |
| `CampRegistry` | the `Handles` registry of server/modules/contribution/index.js |
| `ContributionModule` | server/modules/contribution/index.js |
| `ContributionService` | server/services/contribution/index.js |
| `TopicModule` | server/modules/topic.js |
| `TopicService` | server/services/topic.js |
| `Transform` | server/services/twitter/transform.js |
| `Stream` | server/services/twitter/stream.js (and the same code in server/services/twitter/index.js) |
| `TwitterIndex` | the REST helpers of server/services/twitter/index.js |
| `LegacyTwitter` | server/services/twitter.js |
| `HandleSync` | server/modules/handle.js |
| `Settings` | server/settings.js |
| `BaseModel` | server/services/database/models/_base.js |

Objects that the source updates in place are Dafny classes whose methods declare what they modify:
- the evaluator and its context (`Evaluator.Engine`, `Evaluator.Context`);
- the camp registry (`CampRegistry.Handles`);
- the topic store (`TopicModule.Topics`);
- the stream service (`Stream.StreamService`);
- the paging parameters (`TwitterIndex.Params`);
- the older Twitter plugin (`LegacyTwitter.Plugin`);
- the settings table (`Settings.Store`).

Loops of the source are methods with loop invariants, each proved equal to a specification function; the properties are lemmas about those functions. Database reads, Twitter calls and Klout lookups are parameters: oracle maps, functions, or given outcomes (`Settled`).

## Model

| member | source | states |
|---|---|---|
| Evaluator.PrepareMatch | server/modules/contribution/evaluator.js:6-17 | a string condition `k` tests the literal property `k`, `!k` tests its negation; a function is kept as is; preparation never fails: a string the regular expression rejects (empty, or holding a line terminator) becomes a condition that throws when called |
| Evaluator.PrepareAll | server/modules/contribution/evaluator.js:21-24 | one prepared condition per condition, in order |
| Evaluator.NewRule | server/modules/contribution/evaluator.js:19-27 | `new Rule` always constructs: the rule holds the prepared conditions, the action and the description |
| Evaluator.UnparsedConditionNeverFires | server/modules/contribution/evaluator.js:13-14 | a rule with a condition string the regular expression rejects is still added, but never fires, since its throw at match time counts as not met (line 33) |
| Evaluator.Match | server/modules/contribution/evaluator.js:29-35 | a rule matches iff every condition holds; conditions run left to right and none after the first that fails; a rejecting condition counts as not met |
| Evaluator.Merge | server/modules/contribution/evaluator.js:60 | `Object.assign`: the result's keys win, the others are kept, `undefined` changes nothing |
| Evaluator.RunAllSnoc | server/modules/contribution/evaluator.js:55-64 | running one more rule is one step on the context the earlier rules left |
| Evaluator.RunAllAppend | server/modules/contribution/evaluator.js:55-64 | rules run in order, each seeing the context the previous ones left |
| Evaluator.StepWithoutMatch | server/modules/contribution/evaluator.js:58 | a rule with a failing condition leaves the context unchanged |
| Evaluator.StepOnMatch | server/modules/contribution/evaluator.js:37-39 | a matching rule whose action rejects leaves the context unchanged; otherwise its result is merged |
| Evaluator.KeyConditionsAreLiteral | server/modules/contribution/evaluator.js:11-15 | `"k"` holds iff the context's own property `k` is truthy and `"!k"` iff it is not; no dotted-path lookup |
| Evaluator.RunNeverAdds | server/modules/contribution/evaluator.js:55-64 | a property that no action writes never appears in the context |
| Evaluator.MergeOne | server/modules/contribution/evaluator.js:60 | merging a one-key result sets that key |
| Evaluator.GuardedSpec | server/modules/contribution/evaluator.js:19-27 | a `[key, fn]` match prepares to a truthiness test then the custom test |
| Evaluator.GuardedStep | server/modules/contribution/evaluator.js:29-64 | such a rule applies its action exactly when the key is truthy and the function resolves truthy |
| Evaluator.RunSpecsStages | server/modules/contribution/evaluator.js:51-64 | six groups of added rules run one group after the other |
| Evaluator.Engine.AddRule | server/modules/contribution/evaluator.js:51-53 | always appends the prepared rule |
| Evaluator.Engine.Run | server/modules/contribution/evaluator.js:55-64 | mutates the given context in place into the fold of the rules, and returns that same object |
| Evaluator.NewEngine | server/modules/contribution/evaluator.js:46-53 | an evaluator after `addRule` of each spec holds their prepared rules in order |
| Evaluator.Evaluate | server/modules/contribution/evaluator.js:46-64 | a run over a new context ends with the fold of the specs' rules |
| LegacyEvaluator.ReduceAfterFalsy | server/services/contribution/evaluator.js:29-34 | once the memo is falsy no condition is called and the match resolves `undefined` |
| LegacyEvaluator.LegacyMatchAgrees | server/services/contribution/evaluator.js:29-34 | the older match resolves truthy iff every condition holds, and rejects iff the first failing condition threw |
| LegacyEvaluator.LegacyStepAgrees | server/services/contribution/evaluator.js:54-66 | a rejected match means "does not apply", so one rule changes the context exactly as in the newer evaluator |
| LegacyEvaluator.LegacyRunAgrees | server/services/contribution/evaluator.js:54-66 | both evaluators fold every rule list to the same context |
| LegacyEvaluator.LegacyRunAllSnoc | server/services/contribution/evaluator.js:54-66 | rules apply in insertion order |
| LegacyEvaluator.LegacyEngine.AddRule | server/services/contribution/evaluator.js:50-52 | always appends the prepared rule |
| LegacyEvaluator.LegacyEngine.Run | server/services/contribution/evaluator.js:54-66 | mutates the given context into the older fold and returns the same object |
| LegacyEvaluator.LegacyEvaluate | server/services/contribution/evaluator.js:45-66 | an older evaluator run over a new context |
| CampRegistry.FirstCamp | server/modules/contribution/index.js:43-47 | the first camp in key order whose set holds the id, none when no set does |
| CampRegistry.KnownIffCamp | server/modules/contribution/index.js:37-47 | `has(id)` iff `camp(id)` names a camp, and that camp's set holds the id |
| CampRegistry.CampOfSingle | server/modules/contribution/index.js:43-47 | an id in one camp only is reported in that camp |
| CampRegistry.Loaded | server/modules/contribution/index.js:24-30 | the store after adding each fetched row of a known camp |
| CampRegistry.LoadedContents | server/modules/contribution/index.js:24-30 | after loading, a camp holds its old ids and the ids of its rows, nothing else |
| CampRegistry.Handles.Add | server/modules/contribution/index.js:31-33 | adds the id to the named camp only; an unknown camp fails and changes nothing |
| CampRegistry.Handles.Delete | server/modules/contribution/index.js:34-36 | removes the id from the named camp only; an unknown camp fails and changes nothing |
| CampRegistry.Handles.Init | server/modules/contribution/index.js:24-30 | the store becomes the loaded store |
| CampRegistry.Handles.Has | server/modules/contribution/index.js:37-42 | true iff some camp's set holds the id |
| CampRegistry.Handles.Camp | server/modules/contribution/index.js:43-47 | the first camp holding the id |
| CampRegistry.AddDeleteLocal | server/modules/contribution/index.js:31-36 | add and delete keep the three camps, touch only the named set, and delete after add of a new id restores the store |
| CampRegistry.DeleteForgets | server/modules/contribution/index.js:34-42 | an id deleted from its only camp is no longer known |
| ContributionModule.Tagged | server/modules/contribution/index.js:90-95 | every mention, in order, tagged with its registry camp or `undefined` |
| ContributionModule.AuthorFlagSpecs | server/modules/contribution/index.js:98-120 | the three author rules, gated on the literal property `handle.camp` |
| ContributionModule.MentionFlagSpecs | server/modules/contribution/index.js:122-144 | the three mention rules, gated on `mentions` |
| ContributionModule.TriadSpecs | server/modules/contribution/index.js:146-168 | the three triad rules, each a conjunction of three flags |
| ContributionModule.Specs | server/modules/contribution/index.js:61-198 | the fifteen rules in order, every condition string one the regular expression of `prepareMatch` accepts |
| ContributionModule.FetchStage | server/modules/contribution/index.js:61-75 | the fetch rules find the parent's contribution and touch only `parent` and `contribution` |
| ContributionModule.LookupStage | server/modules/contribution/index.js:77-96 | a known author becomes `handle`; tagged mentions are set exactly when no contribution was found |
| ContributionModule.AuthorFlagsAsWritten | server/modules/contribution/index.js:98-120 | as written the author rules never fire and leave the context unchanged |
| ContributionModule.MentionFlagsStage | server/modules/contribution/index.js:122-144 | whenever `mentions` is set, even empty, each mention flag is set, true iff some mention has that camp |
| ContributionModule.TriadStage | server/modules/contribution/index.js:146-168 | `newContribution` is set iff one of the three triads holds |
| ContributionModule.TriadKeeps | server/modules/contribution/index.js:146-168 | the triad rules only set `newContribution` |
| ContributionModule.WriteStage | server/modules/contribution/index.js:170-198 | a triad creates a row with no tweets or contributors and the author's camp and flags; then any contribution held counts the tweet when the author is a handle |
| ContributionModule.FlagStagesAsWritten | server/modules/contribution/index.js:98-168 | as written no author flag and no `newContribution` is ever set |
| ContributionModule.BeforeWriteAsWritten | server/modules/contribution/index.js:61-168 | the context the write rules see, as written |
| ContributionModule.ProcessAsWritten | server/modules/contribution/index.js:200-203 | as written `process` never creates a contribution; it counts the tweet in its parent's contribution only for a known author, and returns the parent's contribution even when the update threw |
| ContributionModule.AuthorRulesNeverFire | server/modules/contribution/index.js:98-120 | a broker tweet mentioning a policy maker and a youth yields `undefined` as written, and a new broker contribution as intended |
| ContributionModule.NoParentAsWritten | server/modules/contribution/index.js:200-203 | as written a tweet with no parent never yields a contribution |
| ContributionModule.CorrectedSpecs | server/modules/contribution/index.js:98-120 | the fifteen rules with the author rules gated on the handle's camp |
| ContributionModule.CorrectedAuthorFlagsStage | server/modules/contribution/index.js:98-120 | as intended, a handle author gets the three author flags, each true iff it is the author's camp |
| ContributionModule.CorrectedAuthorMention | server/modules/contribution/index.js:98-144 | the author and mention rules set the six flags and nothing else |
| ContributionModule.TriadFlagsMeaning | server/modules/contribution/index.js:146-168 | read from the flags, a triad is the camp triad of the author and the tagged mentions |
| ContributionModule.FlagStagesCorrected | server/modules/contribution/index.js:98-168 | `newContribution` is set exactly on a camp triad |
| ContributionModule.BeforeWriteCorrected | server/modules/contribution/index.js:61-168 | the context the write rules see, as intended |
| ContributionModule.WriteCorrected | server/modules/contribution/index.js:170-198 | the write rules from that context |
| ContributionModule.ProcessCorrected | server/modules/contribution/index.js:200-203 | `process` returns the contribution, and saves the tweet, that the tables and registry call for |
| ContributionModule.CreatedInCorrected | server/modules/contribution/index.js:170-198 | a contribution is created iff the tweet is outside any contribution, the author is a handle and a triad holds |
| ContributionModule.StartedContribution | server/modules/contribution/index.js:170-198 | a started contribution holds one tweet, the author as only contributor, the author's camp, and only that camp involved |
| ContributionModule.Plugin.HandleCreated | server/modules/contribution/index.js:268-270 | adds the handle to its camp in the registry |
| ContributionModule.Plugin.HandleRemoved | server/modules/contribution/index.js:272-274 | removes the handle from its camp |
| ContributionModule.Plugin.Process | server/modules/contribution/index.js:200-203 | the final context's `contribution` of a run over `{ tweet }` of the fifteen rules as registered (`Run`, the function `Process` reads, whose stages and outcomes the lemmas above state) |
| Records.AddTweetEffect | server/modules/contribution/index.js:185-198 | the update adds exactly one tweet, lists each contributor once, only turns flags on, keeps the row's id |
| Records.AddTweetAppends | server/services/contribution/index.js:141-144 | on a duplicate-free list the author is appended at the end unless already listed |
| Records.AddTweetTwice | server/services/contribution/index.js:141-144 | a second tweet by the same author counts again without listing them twice |
| Records.FirstTweet | server/services/contribution/index.js:118-150 | the first tweet of a fresh contribution leaves one tweet and one contributor |
| ContributionService.MentionsSpec | server/services/contribution/index.js:52-62 | the mention rule fetches stored mentioned handles, only outside a contribution, and rejects when none is stored |
| ContributionService.Specs | server/services/contribution/index.js:28-150 | the fifteen rules in order, every condition string one the regular expression of `prepareMatch` accepts |
| ContributionService.ProcessTweet | server/services/contribution/index.js:152-155 | `process` over an older evaluator equals the run of the rules and returns its `contribution` |
| ContributionService.RunAgrees | server/services/contribution/evaluator.js:54-66 | the older evaluator folds the service's rules to the same context as the newer one |
| ContributionService.FetchStage | server/services/contribution/index.js:28-42 | the fetch rules find the parent's contribution and touch only `parent` and `contribution` |
| ContributionService.LookupStage | server/services/contribution/index.js:44-62 | the author's handle row is fetched when stored; mentioned handles only outside a contribution and only when one is stored |
| ContributionService.AuthorFlagsStage | server/services/contribution/index.js:64-80 | each author flag is set to true iff the handle is of that camp; never to false |
| ContributionService.MentionFlagsStage | server/services/contribution/index.js:82-98 | each mention flag is set to true iff a fetched mentioned handle is of that camp |
| ContributionService.TriadStage | server/services/contribution/index.js:100-116 | `isContribution` is set iff a triad holds |
| ContributionService.WriteStage | server/services/contribution/index.js:118-150 | a triad creates a row with the handle's camp or null, no tweets, no contributors; then any contribution counts the tweet under its author's screen name |
| ContributionService.AuthorMention | server/services/contribution/index.js:64-98 | the six flags are true exactly for the camps of the handle and of the fetched mentions |
| ContributionService.FlagStages | server/services/contribution/index.js:64-116 | from an unflagged context, `isContribution` is set exactly on a camp triad |
| ContributionService.WriteOutcome | server/services/contribution/index.js:118-150 | the write rules from the context the flag rules leave |
| ContributionService.ProcessOutcome | server/services/contribution/index.js:152-155 | `process` returns the parent's contribution, a new one, or `undefined`, as the reference `Expected` says |
| ContributionService.StartedContribution | server/services/contribution/index.js:118-155 | a freshly created contribution leaves `process` with one tweet and the author as only contributor |
| ContributionService.UnknownAuthorCounted | server/services/contribution/index.js:135-150 | a reply in a contribution is counted even when its author has no handle row |
| ContributionService.NoStoredMentionNoContribution | server/services/contribution/index.js:52-62 | with no stored mentioned handle no mention flag is set and no contribution starts |
| TopicModule.KeywordSet | server/modules/topic.js:25-27 | the stored set holds exactly the given keywords |
| TopicModule.LowerAll | server/modules/topic.js:18-24 | each keyword lower-cased, in order |
| TopicModule.LoadedLast | server/modules/topic.js:18-24 | after `init` a topic holds the lower-cased keywords of its last row; others keep theirs |
| TopicModule.Topics.Add | server/modules/topic.js:25-27 | replaces the topic's whole keyword set |
| TopicModule.Topics.Delete | server/modules/topic.js:28-30 | removes the topic whatever the second argument |
| TopicModule.Topics.Init | server/modules/topic.js:18-24 | the store holds each fetched row's lower-cased keywords |
| TopicModule.Topics.Match | server/modules/topic.js:31-35 | exactly the ids, ascending and once each, of topics holding one of the tokens; no tokens with a topic stored fails |
| TopicModule.Topics.Process | server/modules/topic.js:62-71 | returns the matched ids and attaches them only when one matched |
| TopicModule.Topics.Created | server/modules/topic.js:73-75 | stores the keywords as given |
| TopicModule.Topics.CreatedLowered | server/modules/topic.js:73-75 | stores the keywords lower-cased, as `init` does |
| TopicModule.Topics.Removed | server/modules/topic.js:77-79 | the topic is gone from the store |
| TopicModule.MatchDeterministic | server/modules/topic.js:31-35 | with an unchanged store two matches of the same tokens agree |
| TopicModule.RemovedNeverMatches | server/modules/topic.js:77-79 | a removed topic is matched by no tokens |
| TopicModule.CreatedUpperNeverMatches | server/modules/topic.js:63 | a topic created with only upper-case-holding keywords never matches lower-cased tokens |
| TopicModule.CreatedKeywordCase | server/modules/topic.js:73-75 | "Climate" created at run time is not found by "climate" as written, and is found lower-cased |
| TopicModule.CreatedLoweredMatches | server/modules/topic.js:73-75 | lower-cased on creation, a topic matches any token equal to a keyword up to case |
| TopicService.RunsAreWords | server/services/topic.js:45 | every token is a non-empty run of word characters |
| TopicService.RunsCover | server/services/topic.js:45 | the runs concatenated are exactly the text's word characters |
| TopicService.WordsOfText | server/services/topic.js:45 | the words are maximal runs of `[A-Za-z0-9_]` that together give back all word characters |
| TopicService.NoWordCharsNoWords | server/services/topic.js:45 | a text with no word character has no tokens |
| TopicService.LowerAll | server/services/topic.js:46-49 | each keyword lower-cased, in order |
| TopicService.Matched | server/services/topic.js:42-49 | the topics with a non-empty keyword list sharing a keyword with the tokens, and no others; no more than were fetched, and no topic twice if none was fetched twice |
| TopicService.MatchedPositions | server/services/topic.js:42-49 | the filter keeps fetch order: the matched topics are the fetched topics at strictly ascending positions |
| TopicService.ProcessMatches | server/services/topic.js:39-54 | a topic is attached iff one of its keywords equals a word of the text up to case |
| TopicService.NonWordKeywordNeverMatches | server/services/topic.js:45-49 | a keyword with a space, `#` or `-` never matches |
| TopicService.BlankTextMatchesNothing | server/services/topic.js:45-51 | a text with no word characters matches nothing |
| TopicService.MatchedNoTokens | server/services/topic.js:46-51 | with no tokens nothing is matched |
| Transform.ProfileUrlRoundTrip | server/services/twitter/transform.js:18-19 | the screen name is read back from the profile image URL |
| Transform.ProfileUrlInjective | server/services/twitter/transform.js:18-19 | distinct screen names give distinct URLs |
| Transform.Mentions | server/services/twitter/transform.js:26-30 | mentions map one to one, in order, to id, name and screen name; a missing list gives none |
| Transform.TransformKeeps | server/services/twitter/transform.js:6-37 | ids, text, language, flags, reply fields, mentions and the other entities come back out of the internal tweet; the user id is stored twice |
| Transform.MentionsDropExtra | server/services/twitter/transform.js:26-30 | only id, name and screen name of a mention reach the internal tweet |
| Stream.Take | server/services/twitter/stream.js:116-120 | `slice(0, n)`: the first `min(n, len)` elements |
| Stream.FollowIds | server/services/twitter/stream.js:116 | the first `MAX_USERS` (5000, line 11) handle ids in fetch order |
| Stream.TopicKeywordsMembers | server/services/twitter/stream.js:117-118 | every topic keyword is there and nothing else |
| Stream.AtNames | server/services/twitter/stream.js:119 | `@username` for each handle |
| Stream.TrackKeywordsLayout | server/services/twitter/stream.js:117-120 | the topic keywords then the `@` names, no de-duplication, capped at `MAX_KEYWORDS` (400, line 12) |
| Stream.SeedCallsShape | server/services/twitter/stream.js:124-127 | seeding follows iff there is a handle, tracks iff there is a keyword, and always requests a reconnect last |
| Stream.StreamService.Track | server/services/twitter/stream.js:83-87 | forwards the keywords without reconnect, then requests one |
| Stream.StreamService.Untrack | server/services/twitter/stream.js:89-93 | forwards the keywords without reconnect, then requests one |
| Stream.StreamService.Follow | server/services/twitter/stream.js:95-99 | forwards the ids without reconnect, then requests one |
| Stream.StreamService.Unfollow | server/services/twitter/stream.js:101-105 | forwards the ids without reconnect, then requests one |
| Stream.StreamService.Seed | server/services/twitter/stream.js:112-128 | appends the seeding calls |
| Stream.Rooms | server/services/twitter/stream.js:73-81 | timeline, the author's room, one room per topic, then the contribution's room when there is one |
| Stream.TopicRoomsUndefined | server/services/twitter/stream.js:77 | as written every topic room is `topic:undefined` |
| Stream.TopicRoomsCollide | server/services/twitter/stream.js:77 | two different topics share one room as written |
| Stream.TopicRoomsById | server/services/twitter/stream.js:77 | named by id, each topic gets its own room and the id reads back |
| Stream.HandleTweetOrder | server/services/twitter/stream.js:58-71 | emits only after a successful insert and two resolved processors, timeline then author; otherwise exactly one error is logged |
| TwitterIndex.FirstStop | server/services/twitter/index.js:187-196 | the first failure or page with cursor `'0'`, and none before it stops |
| TwitterIndex.FirstStopIs | server/services/twitter/index.js:187-196 | a stopping response with none before is the first stop |
| TwitterIndex.GetUsingCursor | server/services/twitter/index.js:187-196 | settles as `Drain`; one request per page up to the first stop; each later request carries the previous cursor, written into the caller's params |
| TwitterIndex.DrainIgnoresLater | server/services/twitter/index.js:187-196 | responses after the first stop are never used |
| TwitterIndex.DrainPages | server/services/twitter/index.js:187-196 | pages ending in cursor `'0'` drain to all their items in page order |
| TwitterIndex.ItemsOfPages | server/services/twitter/index.js:189-190 | the collected items are the pages' items concatenated |
| TwitterIndex.ListMembersParams | server/services/twitter/index.js:158-163 | `count` defaults to 50, a caller's count wins, other options are kept |
| TwitterIndex.ListMembers | server/services/twitter/index.js:158-163 | the members are the drain of the pages |
| LegacyTwitter.Plugin.Follow | server/services/twitter.js:67-71 | forwards the ids with no reconnect and sets `stalled` |
| LegacyTwitter.Plugin.Tick | server/services/twitter.js:75-81 | a stalled plugin reconnects once and clears `stalled`; otherwise nothing |
| LegacyTwitter.Plugin.Drive | server/services/twitter.js:67-81 | follows and ticks in sequence end as `Stalled` and `Calls` say |
| LegacyTwitter.Plugin.Startup | server/services/twitter.js:83-87 | follows the stored handles' `uid` column as plucked (`StartupIds`, one `undefined` per row without it), then the first tick reconnects |
| LegacyTwitter.ReconnectsAppend | server/services/twitter.js:75-81 | reconnects of two input runs add up |
| LegacyTwitter.FollowsCalls | server/services/twitter.js:67-71 | follows pass straight through and leave the plugin stalled |
| LegacyTwitter.FollowsThenTick | server/services/twitter.js:75-79 | any number of follows before a tick cause exactly one reconnect |
| LegacyTwitter.IdleTick | server/services/twitter.js:76 | a tick when not stalled does nothing |
| LegacyTwitter.ReconnectsBounded | server/services/twitter.js:67-81 | reconnects never exceed ticks, nor follows plus an initial stall |
| LegacyTwitter.Pluck | server/services/twitter.js:84 | each row's column, `undefined` when absent |
| LegacyTwitter.StartupFollowsUndefined | server/services/twitter.js:84 | rows without `uid` make start-up follow only `undefined` |
| LegacyTwitter.StartupMissesHandle | server/services/twitter.js:84 | a migrated handle row is not followed |
| LegacyTwitter.StartupFollowsEveryHandle | server/services/twitter.js:84 | by `id`, start-up follows every stored handle in order |
| LegacyTwitter.LegacyRecordAgrees | server/services/twitter.js:39-62 | the stored record agrees with the newer transform, the entities kept unchanged |
| LegacyTwitter.HandleTweet | server/services/twitter.js:37-65 | `tweets:new` is emitted only after the insert succeeds; a failure is only logged |
| HandleSync.CampListKey | server/modules/handle.js:20-23 | a list setting exists exactly for the youth and policy-maker camps |
| HandleSync.CampListKeysDistinct | server/modules/handle.js:20-23 | the two camps use different settings, and the broker camp none |
| HandleSync.FromProfileKeeps | server/modules/handle.js:119-130 | the row keeps id, username and camp, and its image URL is the transform's and reads back |
| HandleSync.Create | server/modules/handle.js:111-117 | `klout_id` is the identity's unless the data has one; other columns are the data's |
| HandleSync.CreateFromProfileTakesKlout | server/modules/handle.js:111-130 | a handle from a profile takes the Klout id |
| HandleSync.NewMembers | server/modules/handle.js:40-53 | exactly the members whose id is not stored |
| HandleSync.SyncList | server/modules/handle.js:40-53 | one row per new member, in order |
| HandleSync.SyncListCreates | server/modules/handle.js:40-53 | every new member gets a handle of the list's camp, and no stored handle is made again |
| HandleSync.SyncJobs | server/modules/handle.js:55-65 | a youth sync iff its setting is truthy, a policy-maker sync likewise, never a broker sync |
| HandleSync.ListCall | server/modules/handle.js:132-146 | a list call is made iff the camp has a list and its setting is truthy |
| HandleSync.BrokerHasNoList | server/modules/handle.js:20-23 | a broker handle never touches a list |
| HandleSync.AddToTwitterList | server/modules/handle.js:132-139 | resolves iff no call is made or the call succeeds |
| HandleSync.RemoveTolerates110 | server/modules/handle.js:141-152 | removal also resolves on Twitter error 110, and otherwise behaves as adding |
| HandleSync.BrokerExcluded | server/modules/handle.js:67-74 | without a camp filter every camp but the broker's is listed |
| HandleSync.BrokerHandle | server/modules/handle.js:29-38 | the stored broker handle, or the one `create` saves from the account's profile in the broker camp (with the Klout id), then followed |
| Settings.TypeName | server/settings.js:74-76 | `'string'` exactly for strings |
| Settings.RoundTrip | server/settings.js:64-72 | a value reads back from its stored form, always for a string |
| Settings.StringStoredAsIs | server/settings.js:64-67 | a string is stored unchanged |
| Settings.ParsedLookup | server/settings.js:57-62 | the parsed object has one key per row name, each its decoded value |
| Settings.ParseSettings | server/settings.js:57-62 | the `reduce` into `memo` computes the parsed object |
| Settings.Fetched | server/settings.js:29-31 | the rows whose name is a key, in table order |
| Settings.Selected | server/settings.js:15-23 | all rows for no keys, else the named ones |
| Settings.Splice | server/settings.js:37 | removes the name, or the last key when it is absent |
| Settings.SpliceAllMembers | server/settings.js:32-38 | splicing out present names leaves exactly the other keys |
| Settings.MissingMembers | server/settings.js:32-43 | the keys left are exactly those with no row |
| Settings.Reencode | server/settings.js:32-38 | each fetched row's new encoding, and the keys with its name spliced out |
| Settings.Store.Get | server/settings.js:15-23 | the parsed selected rows |
| Settings.Store.GetValue | server/settings.js:49-51 | the key's value, none when absent |
| Settings.Store.Set | server/settings.js:25-47 | the table is upserted and the result is the parsed saved rows; setting names stay unique (`Valid`) |
| Settings.Store.UpdateInPlace | server/settings.js:32-38 | the fetched rows re-encoded in place, names kept, so they stay unique |
| Settings.EncodeDecodes | server/settings.js:64-72 | an encoded row keeps its name and decodes to its value |
| Settings.SetUpserts | server/settings.js:30-44 | after `set` one row per name, one per hash key holding its value; other rows untouched; new rows under new names |
| Settings.SavedNames | server/settings.js:44 | the saved rows have distinct names, exactly the hash's keys |
| Settings.SetResolvesToHash | server/settings.js:44-46 | `set` resolves to the hash's keys, and to the hash itself with a reading codec |
| Settings.GetSelects | server/settings.js:15-23 | `get` reads all settings for no keys, else exactly the named existing ones |
| Settings.SetValueWritesKey | server/settings.js:53-55 | as written `setValue` adds a setting named `key` and leaves the named one |
| Settings.SetValueKeepsNamed | server/settings.js:53-55 | as written the named setting never changes unless it is `key` |
| Settings.SetValueByNameStores | server/settings.js:53-55 | by name, `setValue` stores the value and `get` reads it back |
| BaseModel.Pick | server/services/database/models/_base.js:112 | exactly the listed attributes the model has |
| BaseModel.Serialize | server/services/database/models/_base.js:94-118 | the base serialization when there is no `flatten`, `shallow` is truthy or `flatten` is falsy; otherwise each loaded named relation flattened in key order |
| BaseModel.FlattenIntoFields | server/services/database/models/_base.js:105-115 | a loaded named relation holds its flattening; unnamed or unloaded relations keep the base value |
| BaseModel.FlattenCollection | server/services/database/models/_base.js:109-110 | a collection becomes the attribute plucked from each member, in order |
| BaseModel.FlattenModel | server/services/database/models/_base.js:111-113 | a model gives the attribute's value, or an object of just the listed attributes |
| BaseModel.BookPagesExample | test/database/_base.js:93-101 | the pages of a book flatten to `['abc', 'efg']` |
| BaseModel.PageBookExample | test/database/_base.js:103-111 | a page's book flattens to its name and author |
| BaseModel.BaseSchema | server/services/database/models/_base.js:39-55 | the id attribute plus the timestamp fields: the defaults, the listed ones, or none |
| BaseModel.ModelSchema | server/services/database/models/_base.js:13 | the model's own rules on top of the base schema |
| BaseModel.SavingHook | server/services/database/models/_base.js:24-28 | a save fails iff validation runs and rejects |
| BaseModel.ValidateGate | server/services/database/models/_base.js:25 | validation runs unless `validate` is given and falsy |
| Js.Uniq | server/services/contribution/index.js:144 | `_.uniq`: the same elements, each once, in first-seen order |
| Js.LowerIsLower | server/services/topic.js:45-47 | lower-casing is idempotent and leaves no upper-case letter |
| Js.ParseIntToString | server/services/twitter/stream.js:77 | the decimal text of an integer reads back |
| Js.IntToStringInjective | server/services/twitter/stream.js:77 | different integers have different decimal texts |

## Left out

- Database, Twitter, Klout and socket I/O are parameters or oracle maps, and so are the `fetch` calls inside rule conditions and actions. Saves are assumed to succeed except where a given outcome says otherwise.
- The tokenizer regular expression of server/modules/topic.js is an uninterpreted function of the lower-cased text. `\w+` in server/services/topic.js is modelled exactly.
- The timing of the throttled reconnect of server/services/twitter/stream.js is left out: only "reconnect requested" is recorded.
- `setTimeout` in server/services/twitter.js is left out: the endless tick loop is a run of given follow and tick inputs (`LegacyTwitter.Plugin.Drive`).
- Concurrency is modelled sequentially: `Promise.map` with concurrency 3, and the topic and contribution processors running side by side.
- `JSON.stringify`/`JSON.parse` are an abstract codec (`Settings.Codec`). Joi validation is a given outcome. `new Date(...)` in the transforms is left out.
- Query builders (`prepareQuery`, `fetch`, `count`) only assemble SQL, apart from the broker exclusion, which `HandleSync.Listed` models.
- `Evaluator.Rule.describe` returns the description and is not modelled further.
- `BaseModel`'s `validate` and `parse` are Joi calls and are not modelled.
- Seeding, broadcast, the tweet handler and `internals.transform` in server/services/twitter/index.js repeat stream.js and transform.js. They are the `Stream` and `Transform` members and are not written twice.
- ContributionModule.Update: the source mutates the tweet and contribution objects through `set` and resolves to `undefined`. The model returns the two updated rows as the action's result, which is the same end state given the first line of this section, which assumes saves succeed. A failing `save()` after the `set` calls would leave the objects changed while the rule is dropped, and that case is not modelled.
- Settings.Store.Set: the in-place `set` on fetched model objects is applied to the table rows by name, and the saves are assumed to succeed.
- TopicModule.Topics.Match: the ids are returned ascending. The source returns them in `Object.keys` order, which for integer-like keys is also ascending.
- Settings.Val: numbers are integers; a fractional setting value (`toValue('1.5', 'number')`) is not modelled, so `Settings.RoundTrip` and `Settings.EncodeDecodes` do not cover it.
- Stream.Rooms: `io.to(room).emit` is recorded as the room name only, without the payload.
- Js.Lower: folds only the ASCII capitals `A`-`Z`. `toLowerCase` also folds non-ASCII capitals, which the model leaves as they are. The `\w` class and the topic tokenizer match ASCII word characters, so this changes a match only for keywords or text with non-ASCII capitals.
- TopicModule.LowerAll: lowers through `Js.Lower`, so only `A`-`Z` are folded (see above).
- TopicService.LowerAll: lowers through `Js.Lower`, so only `A`-`Z` are folded (see above).
- Transform.Transform: builds a fresh tweet value. server/services/twitter/transform.js:25 writes the mapped `user_mentions` into the incoming `tweet.entities` in place with `Object.assign`; the caller, `tweetHandler` in server/services/twitter/stream.js:59, never reads the incoming tweet again, so the difference is not observable.
- Evaluator.Get: reads a context's own properties only. `ctx[name]` in JavaScript also finds inherited properties such as `constructor` or `toString`, which are truthy; a condition string naming one of them is not modelled.

## Findings

| source | as written | input that shows it | evidently intended | confidence | as-written member | corrected member |
|---|---|---|---|---|---|---|
| server/modules/contribution/index.js:100 | the author rules are gated on the context property literally named `handle.camp`, which never exists, so no author flag is set and no contribution is ever created | a broker tweet with no parent mentioning a policy-maker and a youth handle: `process` gives `undefined` | gate on the handle's camp | not executed; high | ContributionModule.AuthorRulesNeverFire | ContributionModule.ProcessCorrected |
| server/services/twitter/stream.js:77 | the room is `topic:` + `topic.id`, but the topic processor returns plain numbers, so every topic goes to `topic:undefined` | topics 1 and 2 matched: both emits go to `topic:undefined` | one room per topic id, `topic:<id>` | not executed; high | Stream.TopicRoomsCollide | Stream.TopicRoomsById |
| server/settings.js:53-55 | `setValue` builds `{ key: val }` and `['key']`, writing a setting named `key` | `setValue('twitter.list.youth', '2')` leaves the youth list setting unchanged and adds `key` | write the setting named by the argument | not executed; high | Settings.SetValueWritesKey | Settings.SetValueByNameStores |
| server/modules/topic.js:73-75 | `created` stores keywords as given while `init` and the text are lower-cased | a topic created with keyword `Climate` is not matched by a tweet saying `climate` | lower-case keywords on `created` too | not executed; high | TopicModule.CreatedKeywordCase | TopicModule.CreatedLoweredMatches |
| server/services/twitter.js:84 | start-up plucks `uid`, a column the migration 20161026151327_handle_uid_to_id drops | the row `{id: '12', username: 'ask'}` makes start-up follow `undefined` | pluck `id` | not executed; medium | LegacyTwitter.StartupMissesHandle | LegacyTwitter.StartupFollowsEveryHandle |

The model follows the code where the documentation differs. A contribution created by a tweet leaves the older service's `process` with `tweets = 1`, not 0, because the update rule runs right after the creation rule (`ContributionService.StartedContribution`).
