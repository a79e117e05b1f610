/** The rule evaluator of server/modules/contribution/evaluator.js: an
    ordered list of rules, each a conjunction of conditions and an
    action, folded over a context object that every matching rule
    extends with the fields its action returns. */
module Evaluator {
  import opened Js

  /** The context: property name to value. A property that is absent
      reads as `undefined`. */
  type Fields<O> = map<string, Value<O>>

  function Get<O>(ctx: Fields<O>, key: string): Value<O>
  {
    if key in ctx then ctx[key] else Undefined
  }

  /** A condition as it is passed to `addRule`: a string naming a context
      property, optionally prefixed with `!`, or a function of the
      context whose result (or rejection) decides. */
  datatype Condition<!O> =
    | Key(spec: string)
    | Fn(call: Fields<O> -> Settled<Value<O>>)

  /** A condition after `prepareMatch`. A string the pattern does not
      match still becomes a condition: the closure reads the failed
      match's groups when it is called, so calling it throws. */
  datatype Test<!O> =
    | IsTruthy(key: string)
    | IsFalsy(key: string)
    | Custom(call: Fields<O> -> Settled<Value<O>>)
    | Malformed(spec: string)

  /** What `addRule` is given. A single condition is the one-element
      list (the source wraps a non-array `match` into an array). */
  datatype RuleSpec<!O> = RuleSpec(
    description: string,
    conditions: seq<Condition<O>>,
    action: Fields<O> -> Settled<Option<Fields<O>>>)

  /** A prepared rule. The action resolves to the object to merge, or to
      `undefined` (None), or rejects. */
  datatype Rule<!O> = Rule(
    description: string,
    tests: seq<Test<O>>,
    action: Fields<O> -> Settled<Option<Fields<O>>>)

  // ---------------------------------------------------------------------
  // prepareMatch: the string mini-language `^(!?)(.+)$`

  /** The characters that `.` in a JavaScript regular expression does not
      match. */
  predicate IsLineTerminator(c: char)
  {
    c == '\n' || c == '\r' || c == '\U{2028}' || c == '\U{2029}'
  }

  predicate MatchableByDots(s: string)
  {
    |s| > 0 && forall i | 0 <= i < |s| :: !IsLineTerminator(s[i])
  }

  /** `prepareMatch`. Preparing never fails: a string that does not match
      `^(!?)(.+)$` (it is empty or holds a line terminator) gives a
      condition that throws when the rule is matched. */
  function PrepareMatch<O>(c: Condition<O>): (r: Test<O>)
    ensures c.Fn? ==> r == Custom(c.call)
    ensures c.Key? ==> (r.Malformed? <==> !MatchableByDots(c.spec))
    ensures r.Malformed? ==> c == Key(r.spec)
    ensures r.IsFalsy? ==> c.Key? && c.spec == "!" + r.key && r.key != ""
    ensures r.IsTruthy? ==> c.Key? && c.spec == r.key
    ensures c.Key? && MatchableByDots(c.spec) && |c.spec| > 1 && c.spec[0] == '!' ==> r.IsFalsy?
  {
    match c
    case Fn(f) => Custom(f)
    case Key(s) =>
      if !MatchableByDots(s) then Malformed(s)
      else if |s| > 1 && s[0] == '!' then
        assert s == "!" + s[1..];
        IsFalsy(s[1..])
      else IsTruthy(s)
  }

  /** `match.map(prepareMatch)`: one prepared condition per condition, in
      order. */
  function PrepareAll<O>(cs: seq<Condition<O>>): (r: seq<Test<O>>)
    ensures |r| == |cs|
    ensures forall i | 0 <= i < |cs| :: r[i] == PrepareMatch(cs[i])
  {
    if cs == [] then [] else [PrepareMatch(cs[0])] + PrepareAll(cs[1..])
  }

  /** `new Rule(options)`: always constructs. */
  function NewRule<O>(spec: RuleSpec<O>): (r: Rule<O>)
    ensures r.tests == PrepareAll(spec.conditions)
    ensures r.action == spec.action && r.description == spec.description
  {
    Rule(spec.description, PrepareAll(spec.conditions), spec.action)
  }

  // ---------------------------------------------------------------------
  // Rule.match

  /** How one condition settles, after `!!`. String conditions read one
      literal property and never throw. */
  function Outcome<O>(t: Test<O>, ctx: Fields<O>): Settled<bool>
  {
    match t
    case IsTruthy(k) => Resolved(Truthy(Get(ctx, k)))
    case IsFalsy(k) => Resolved(!Truthy(Get(ctx, k)))
    case Malformed(_) => Rejected
    case Custom(f) =>
      match f(ctx)
      case Resolved(v) => Resolved(Truthy(v))
      case Rejected => Rejected
  }

  /** A condition counts as met only when it resolves truthy; a rejection
      counts as not met (`.catch(() => false)`). */
  predicate Holds<O>(t: Test<O>, ctx: Fields<O>)
  {
    Outcome(t, ctx) == Resolved(true)
  }

  /** The result of `Rule.match`, with the number of conditions that were
      actually called. */
  datatype Verdict = Verdict(holds: bool, evaluated: nat)

  /** `Promise.reduce(conds, (memo, cond) => memo && …, true)`: the
      conditions are called left to right and none after the first that
      is not met. */
  function Match<O>(tests: seq<Test<O>>, ctx: Fields<O>): (v: Verdict)
    ensures v.evaluated <= |tests|
    ensures v.holds <==> forall i | 0 <= i < |tests| :: Holds(tests[i], ctx)
    ensures v.holds ==> v.evaluated == |tests|
    ensures !v.holds ==> 0 < v.evaluated
                         && !Holds(tests[v.evaluated - 1], ctx)
                         && forall i | 0 <= i < v.evaluated - 1 :: Holds(tests[i], ctx)
  {
    if tests == [] then Verdict(true, 0)
    else if !Holds(tests[0], ctx) then Verdict(false, 1)
    else
      var rest := Match(tests[1..], ctx);
      Verdict(rest.holds, rest.evaluated + 1)
  }

  // ---------------------------------------------------------------------
  // Evaluator.run

  /** `Object.assign(ctx, result)`: the result's properties overwrite;
      `undefined` assigns nothing. */
  function Merge<O>(ctx: Fields<O>, result: Option<Fields<O>>): (r: Fields<O>)
    ensures result.None? ==> r == ctx
    ensures result.Some? ==> r.Keys == ctx.Keys + result.value.Keys
    ensures result.Some? ==> forall k | k in result.value :: r[k] == result.value[k]
    ensures forall k | k in ctx && (result.None? || k !in result.value) :: r[k] == ctx[k]
  {
    match result
    case None => ctx
    case Some(patch) => ctx + patch
  }

  /** One rule of the fold: a rule that does not match, or whose action
      throws or rejects, hands the context on as it was. */
  function Step<O>(rule: Rule<O>, ctx: Fields<O>): Fields<O>
  {
    if !Match(rule.tests, ctx).holds then ctx
    else
      match rule.action(ctx)
      case Rejected => ctx
      case Resolved(result) => Merge(ctx, result)
  }

  /** The fold of `run`, first rule first. */
  function RunAll<O>(rules: seq<Rule<O>>, ctx: Fields<O>): Fields<O>
    decreases |rules|
  {
    if rules == [] then ctx else RunAll(rules[1..], Step(rules[0], ctx))
  }

  /** Running one more rule is one more step on the context the earlier
      rules left. */
  lemma {:induction false} RunAllSnoc<O>(rules: seq<Rule<O>>, last: Rule<O>, ctx: Fields<O>)
    ensures RunAll(rules + [last], ctx) == Step(last, RunAll(rules, ctx))
    decreases |rules|
  {
    if rules == [] {
      assert [last][1..] == [];
    } else {
      assert (rules + [last])[1..] == rules[1..] + [last];
      RunAllSnoc(rules[1..], last, Step(rules[0], ctx));
    }
  }

  /** Running a concatenation runs the second list on what the first left. */
  lemma {:induction false} RunAllAppend<O>(first: seq<Rule<O>>, second: seq<Rule<O>>, ctx: Fields<O>)
    ensures RunAll(first + second, ctx) == RunAll(second, RunAll(first, ctx))
    decreases |first|
  {
    if first == [] {
      assert first + second == second;
    } else {
      assert (first + second)[1..] == first[1..] + second;
      RunAllAppend(first[1..], second, Step(first[0], ctx));
    }
  }

  /** A rule whose conditions are not all met leaves the context as it
      was. */
  lemma StepWithoutMatch<O>(rule: Rule<O>, ctx: Fields<O>, i: nat)
    requires i < |rule.tests| && !Holds(rule.tests[i], ctx)
    ensures Step(rule, ctx) == ctx
  {
  }

  /** A matching rule whose action throws or rejects leaves the context as
      it was; one that resolves merges the result in, its keys winning. */
  lemma StepOnMatch<O>(rule: Rule<O>, ctx: Fields<O>)
    requires forall i | 0 <= i < |rule.tests| :: Holds(rule.tests[i], ctx)
    ensures rule.action(ctx).Rejected? ==> Step(rule, ctx) == ctx
    ensures rule.action(ctx).Resolved? ==> Step(rule, ctx) == Merge(ctx, rule.action(ctx).value)
  {
  }

  /** A string condition reads exactly one property, by its literal name:
      "handle.camp" is the property of that name, not `camp` inside
      `handle`. `Fields` holds a context's own properties only; the
      properties a JavaScript object inherits ("constructor",
      "toString", ...) are not part of this model. */
  lemma KeyConditionsAreLiteral<O>(name: string, ctx: Fields<O>)
    requires MatchableByDots(name) && name[0] != '!'
    ensures PrepareMatch<O>(Key(name)) == IsTruthy(name)
    ensures PrepareMatch<O>(Key("!" + name)) == IsFalsy(name)
    ensures Holds(IsTruthy(name), ctx) <==> name in ctx && Truthy(ctx[name])
    ensures Holds(IsFalsy(name), ctx) <==> !(name in ctx && Truthy(ctx[name]))
  {
    var neg := "!" + name;
    assert neg[1..] == name;
    assert forall i | 0 <= i < |neg| :: neg[i] == if i == 0 then '!' else name[i - 1];
  }

  /** If no action can ever produce property `k`, a run that starts
      without `k` ends without it. */
  lemma {:induction false} RunNeverAdds<O>(rules: seq<Rule<O>>, ctx: Fields<O>, k: string)
    requires k !in ctx
    requires forall i, c | 0 <= i < |rules| :: NeverWrites(rules[i], c, k)
    ensures k !in RunAll(rules, ctx)
    decreases |rules|
  {
    if rules != [] {
      assert NeverWrites(rules[0], ctx, k);
      RunNeverAdds(rules[1..], Step(rules[0], ctx), k);
    }
  }

  predicate NeverWrites<O>(rule: Rule<O>, ctx: Fields<O>, k: string)
  {
    rule.action(ctx).Resolved? && rule.action(ctx).value.Some? ==> k !in rule.action(ctx).value.value
  }

  /** Merging a one-property result sets that property. */
  lemma MergeOne<O>(ctx: Fields<O>, k: string, v: Value<O>)
    ensures Merge(ctx, Some(map[k := v])) == ctx[k := v]
  {
  }

  // ---------------------------------------------------------------------
  // A rule list written as `addRule` calls

  /** Every string condition of every rule is one `prepareMatch` can
      read, so no rule's match throws for that reason. */
  predicate ConditionsParse<O>(specs: seq<RuleSpec<O>>)
  {
    forall i, j | 0 <= i < |specs| && 0 <= j < |specs[i].conditions| ::
      specs[i].conditions[j].Key? ==> MatchableByDots(specs[i].conditions[j].spec)
  }

  /** The rules an evaluator holds after `addRule` of each spec in turn. */
  function Build<O>(specs: seq<RuleSpec<O>>): (r: seq<Rule<O>>)
    ensures |r| == |specs|
    ensures forall i | 0 <= i < |specs| :: r[i] == NewRule(specs[i])
  {
    seq(|specs|, i requires 0 <= i < |specs| => NewRule(specs[i]))
  }

  /** One spec's rule applied to a context. */
  function Apply<O>(spec: RuleSpec<O>, ctx: Fields<O>): Fields<O>
  {
    Step(NewRule(spec), ctx)
  }

  /** A rule one of whose condition strings does not parse is still added,
      but it never fires: its match throws, and the throw counts as not
      met. */
  lemma UnparsedConditionNeverFires<O>(spec: RuleSpec<O>, j: nat, ctx: Fields<O>)
    requires j < |spec.conditions| && spec.conditions[j].Key?
    requires !MatchableByDots(spec.conditions[j].spec)
    ensures |Build([spec])| == 1
    ensures Apply(spec, ctx) == ctx
  {
    var rule := NewRule(spec);
    assert rule.tests[j] == Malformed(spec.conditions[j].spec);
    StepWithoutMatch(rule, ctx, j);
  }

  /** A rule written `match: ['k', (ctx) => …]`: gated on a context
      property, then on a condition of the context. */
  function GuardedSpec<O>(description: string, key: string, cond: Fields<O> -> Settled<Value<O>>,
                          action: Fields<O> -> Settled<Option<Fields<O>>>): (r: RuleSpec<O>)
    requires MatchableByDots(key) && key[0] != '!'
    ensures NewRule(r) == Rule(description, [IsTruthy(key), Custom(cond)], action)
    ensures ConditionsParse([r])
  {
    var r := RuleSpec(description, [Key(key), Fn(cond)], action);
    assert PrepareMatch(r.conditions[0]) == IsTruthy(key);
    var tests := PrepareAll(r.conditions);
    assert tests == [IsTruthy(key), Custom(cond)];
    r
  }

  /** Such a rule applies its action exactly when the property is truthy
      and the condition resolves truthy. */
  lemma GuardedStep<O>(description: string, key: string, cond: Fields<O> -> Settled<Value<O>>,
                       action: Fields<O> -> Settled<Option<Fields<O>>>, ctx: Fields<O>)
    requires MatchableByDots(key) && key[0] != '!'
    ensures Apply(GuardedSpec(description, key, cond, action), ctx) ==
            if Truthy(Get(ctx, key)) && cond(ctx).Resolved? && Truthy(cond(ctx).value) then
              match action(ctx)
              case Rejected => ctx
              case Resolved(patch) => Merge(ctx, patch)
            else ctx
  {
    var tests: seq<Test<O>> := [IsTruthy(key), Custom(cond)];
    assert Match(tests, ctx).holds <==> Holds(tests[0], ctx) && Holds(tests[1], ctx);
  }

  /** The fold of `run` over the rules `addRule` made of `specs`. */
  function RunSpecs<O>(specs: seq<RuleSpec<O>>, ctx: Fields<O>): Fields<O>
  {
    RunAll(Build(specs), ctx)
  }

  lemma RunSpecsCons<O>(spec: RuleSpec<O>, rest: seq<RuleSpec<O>>, ctx: Fields<O>)
    ensures RunSpecs([spec] + rest, ctx) == RunSpecs(rest, Apply(spec, ctx))
  {
    var all := Build([spec] + rest);
    assert all[0] == NewRule(spec);
    assert all[1..] == Build(rest) by {
      assert forall i | 0 <= i < |rest| :: all[1..][i] == NewRule(([spec] + rest)[i + 1]);
    }
  }

  lemma ConditionsParseAppend<O>(first: seq<RuleSpec<O>>, second: seq<RuleSpec<O>>)
    requires ConditionsParse(first) && ConditionsParse(second)
    ensures ConditionsParse(first + second)
  {
    assert forall i | |first| <= i < |first + second| :: (first + second)[i] == second[i - |first|];
  }

  lemma RunSpecsAppend<O>(first: seq<RuleSpec<O>>, second: seq<RuleSpec<O>>, ctx: Fields<O>)
    ensures RunSpecs(first + second, ctx) == RunSpecs(second, RunSpecs(first, ctx))
  {
    assert forall i | |first| <= i < |first + second| :: (first + second)[i] == second[i - |first|];
    assert Build(first + second) == Build(first) + Build(second);
    RunAllAppend(Build(first), Build(second), ctx);
  }

  lemma ConditionsParseStages<O>(a: seq<RuleSpec<O>>, b: seq<RuleSpec<O>>, c: seq<RuleSpec<O>>,
                                 d: seq<RuleSpec<O>>, e: seq<RuleSpec<O>>, f: seq<RuleSpec<O>>)
    requires ConditionsParse(a) && ConditionsParse(b) && ConditionsParse(c)
    requires ConditionsParse(d) && ConditionsParse(e) && ConditionsParse(f)
    ensures ConditionsParse(a + b + c + d + e + f)
  {
    ConditionsParseAppend(a, b);
    ConditionsParseAppend(a + b, c);
    ConditionsParseAppend(a + b + c, d);
    ConditionsParseAppend(a + b + c + d, e);
    ConditionsParseAppend(a + b + c + d + e, f);
  }

  /** Six groups of rules run one after the other. */
  lemma RunSpecsStages<O>(a: seq<RuleSpec<O>>, b: seq<RuleSpec<O>>, c: seq<RuleSpec<O>>,
                          d: seq<RuleSpec<O>>, e: seq<RuleSpec<O>>, f: seq<RuleSpec<O>>, ctx: Fields<O>)
    ensures RunSpecs(a + b + c + d + e + f, ctx) ==
            RunSpecs(f, RunSpecs(e, RunSpecs(d, RunSpecs(c, RunSpecs(b, RunSpecs(a, ctx))))))
  {
    RunSpecsAppend(a, b, ctx);
    RunSpecsAppend(a + b, c, ctx);
    RunSpecsAppend(a + b + c, d, ctx);
    RunSpecsAppend(a + b + c + d, e, ctx);
    RunSpecsAppend(a + b + c + d + e, f, ctx);
  }

  lemma RunSpecsOne<O>(spec: RuleSpec<O>, ctx: Fields<O>)
    ensures RunSpecs([spec], ctx) == Apply(spec, ctx)
  {
    var rules := Build([spec]);
    assert rules == [NewRule(spec)];
    assert rules[1..] == [];
    assert RunAll(rules, ctx) == RunAll(rules[1..], Step(rules[0], ctx));
  }

  /** Three rules run one after the other. */
  lemma RunSpecsThree<O>(specs: seq<RuleSpec<O>>, ctx: Fields<O>)
    requires |specs| == 3
    ensures RunSpecs(specs, ctx) == Apply(specs[2], Apply(specs[1], Apply(specs[0], ctx)))
  {
    assert specs == [specs[0]] + ([specs[1]] + [specs[2]]);
    RunSpecsCons(specs[0], [specs[1]] + [specs[2]], ctx);
    RunSpecsCons(specs[1], [specs[2]], Apply(specs[0], ctx));
    RunSpecsOne(specs[2], Apply(specs[1], Apply(specs[0], ctx)));
  }

  // ---------------------------------------------------------------------
  // The mutable objects: the context handed to `run`, and the evaluator

  /** The context object; `run` mutates it in place. */
  class Context<O> {
    var fields: Fields<O>

    constructor (init: Fields<O>)
      ensures fields == init
    {
      fields := init;
    }
  }

  class Engine<O> {
    var rules: seq<Rule<O>>

    constructor ()
      ensures rules == []
    {
      rules := [];
    }

    /** `addRule`: appends the prepared rule. Preparing never throws, so
        the rule is always added. */
    method AddRule(spec: RuleSpec<O>)
      modifies this
      ensures rules == old(rules) + [NewRule(spec)]
    {
      var rule := NewRule(spec);
      rules := rules + [rule];
    }

    /** `run`: folds the rules, in the order they were added, over the
        context object itself and resolves to that same object. It never
        rejects. */
    method Run(ctx: Context<O>) returns (r: Context<O>)
      modifies ctx
      ensures r == ctx
      ensures ctx.fields == RunAll(rules, old(ctx.fields))
    {
      var i := 0;
      while i < |rules|
        invariant 0 <= i <= |rules|
        invariant ctx.fields == RunAll(rules[..i], old(ctx.fields))
      {
        var rule := rules[i];
        var verdict := Match(rule.tests, ctx.fields);
        if verdict.holds {
          var result := rule.action(ctx.fields);
          if result.Resolved? {
            ctx.fields := Merge(ctx.fields, result.value);
          }
        }
        RunAllSnoc(rules[..i], rules[i], old(ctx.fields));
        assert rules[..i + 1] == rules[..i] + [rules[i]];
        i := i + 1;
      }
      assert rules[..i] == rules;
      r := ctx;
    }
  }

  /** `new Evaluator()` followed by `addRule` of each spec in turn. */
  method NewEngine<O>(specs: seq<RuleSpec<O>>) returns (engine: Engine<O>)
    ensures fresh(engine)
    ensures engine.rules == Build(specs)
  {
    engine := new Engine<O>();
    var i := 0;
    while i < |specs|
      invariant 0 <= i <= |specs|
      invariant |engine.rules| == i
      invariant forall j | 0 <= j < i :: engine.rules[j] == NewRule(specs[j])
    {
      engine.AddRule(specs[i]);
      i := i + 1;
    }
  }

  /** An evaluator holding the rules of `specs`, run over a new context
      object holding `init`. */
  method Evaluate<O>(specs: seq<RuleSpec<O>>, init: Fields<O>) returns (ctx: Context<O>)
    ensures fresh(ctx)
    ensures ctx.fields == RunSpecs(specs, init)
  {
    var engine := NewEngine(specs);
    ctx := new Context(init);
    var _ := engine.Run(ctx);
  }
}
