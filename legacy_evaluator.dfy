/** The older evaluator of server/services/contribution/evaluator.js. It
    prepares conditions and rules exactly as the newer one (module
    Evaluator) does; it differs in `Rule.match`, whose reduction stops
    calling conditions once the memo is falsy, resolves `undefined` in
    that case, and rejects when a condition throws, leaving `run` to
    turn that rejection into "rule does not apply". */
module LegacyEvaluator {
  import opened Js
  import opened Evaluator

  /** `Promise.reduce(conds, (memo, cond) => { if (!memo) return;
      return Promise.resolve(cond(ctx)).then(r => memo && !!r) }, memo)`. */
  function Reduce<O>(tests: seq<Test<O>>, ctx: Fields<O>, memo: Value<O>): Settled<Value<O>>
    decreases |tests|
  {
    if tests == [] then Resolved(memo)
    else if !Truthy(memo) then Reduce(tests[1..], ctx, Undefined)
    else
      match Outcome(tests[0], ctx)
      case Rejected => Rejected
      case Resolved(b) => Reduce(tests[1..], ctx, Bool(b))
  }

  /** `Rule.match`. */
  function LegacyMatch<O>(tests: seq<Test<O>>, ctx: Fields<O>): Settled<Value<O>>
  {
    Reduce(tests, ctx, Bool(true))
  }

  /** Once the memo is falsy, no later condition is called and the
      reduction ends on `undefined` if any condition was left, on the
      falsy memo itself otherwise. */
  lemma {:induction false} ReduceAfterFalsy<O>(tests: seq<Test<O>>, ctx: Fields<O>, memo: Value<O>)
    requires !Truthy(memo)
    ensures Reduce(tests, ctx, memo) == Resolved(if tests == [] then memo else Undefined)
    decreases |tests|
  {
    if tests != [] {
      ReduceAfterFalsy(tests[1..], ctx, Undefined);
    }
  }

  /** How the older `Rule.match` relates to the newer one (module
      Evaluator): it resolves truthy exactly when every condition holds;
      it rejects exactly when the first condition that is not met
      rejected; otherwise it resolves `false` when that condition was the
      last one and `undefined` when conditions were left uncalled. */
  lemma {:induction false} LegacyMatchAgrees<O>(tests: seq<Test<O>>, ctx: Fields<O>)
    ensures var v := Match(tests, ctx);
            var l := LegacyMatch(tests, ctx);
            && (l.Resolved? && Truthy(l.value) <==> v.holds)
            && (l.Rejected? <==> !v.holds && Outcome(tests[v.evaluated - 1], ctx).Rejected?)
            && (l.Resolved? && !v.holds ==>
                  l.value == if v.evaluated == |tests| then Bool(false) else Undefined)
    decreases |tests|
  {
    if tests != [] {
      match Outcome(tests[0], ctx)
      case Rejected =>
      case Resolved(b) =>
        if b {
          LegacyMatchAgrees(tests[1..], ctx);
        } else {
          ReduceAfterFalsy(tests[1..], ctx, Bool(false));
        }
    }
  }

  /** One rule of the older `run`: a rejected match becomes "does not
      apply" (`.catch(() => false)`), and so does a rejected action. */
  function LegacyStep<O>(rule: Rule<O>, ctx: Fields<O>): Fields<O>
  {
    match LegacyMatch(rule.tests, ctx)
    case Rejected => ctx
    case Resolved(m) =>
      if !Truthy(m) then ctx
      else
        match rule.action(ctx)
        case Rejected => ctx
        case Resolved(result) => Merge(ctx, result)
  }

  function LegacyRunAll<O>(rules: seq<Rule<O>>, ctx: Fields<O>): Fields<O>
    decreases |rules|
  {
    if rules == [] then ctx else LegacyRunAll(rules[1..], LegacyStep(rules[0], ctx))
  }

  /** Despite the different `Rule.match`, one rule changes the context
      exactly as the newer evaluator's rule does. */
  lemma LegacyStepAgrees<O>(rule: Rule<O>, ctx: Fields<O>)
    ensures LegacyStep(rule, ctx) == Step(rule, ctx)
  {
    LegacyMatchAgrees(rule.tests, ctx);
  }

  /** So both evaluators fold any rule list to the same context. */
  lemma {:induction false} LegacyRunAgrees<O>(rules: seq<Rule<O>>, ctx: Fields<O>)
    ensures LegacyRunAll(rules, ctx) == RunAll(rules, ctx)
    decreases |rules|
  {
    if rules != [] {
      LegacyStepAgrees(rules[0], ctx);
      LegacyRunAgrees(rules[1..], Step(rules[0], ctx));
    }
  }

  lemma {:induction false} LegacyRunAllSnoc<O>(rules: seq<Rule<O>>, last: Rule<O>, ctx: Fields<O>)
    ensures LegacyRunAll(rules + [last], ctx) == LegacyStep(last, LegacyRunAll(rules, ctx))
    decreases |rules|
  {
    if rules == [] {
      assert [last][1..] == [];
    } else {
      assert (rules + [last])[1..] == rules[1..] + [last];
      LegacyRunAllSnoc(rules[1..], last, LegacyStep(rules[0], ctx));
    }
  }

  class LegacyEngine<O> {
    var rules: seq<Rule<O>>

    constructor ()
      ensures rules == []
    {
      rules := [];
    }

    /** `addRule`, prepared as in the newer evaluator: always appends. */
    method AddRule(spec: RuleSpec<O>)
      modifies this
      ensures rules == old(rules) + [NewRule(spec)]
    {
      var rule := NewRule(spec);
      rules := rules + [rule];
    }

    /** `run`: folds the rules in insertion order over the context object
        in place and resolves to that same object. */
    method Run(ctx: Context<O>) returns (r: Context<O>)
      modifies ctx
      ensures r == ctx
      ensures ctx.fields == LegacyRunAll(rules, old(ctx.fields))
    {
      var i := 0;
      while i < |rules|
        invariant 0 <= i <= |rules|
        invariant ctx.fields == LegacyRunAll(rules[..i], old(ctx.fields))
      {
        var rule := rules[i];
        var matched := LegacyMatch(rule.tests, ctx.fields);
        if matched.Resolved? && Truthy(matched.value) {
          var result := rule.action(ctx.fields);
          if result.Resolved? {
            ctx.fields := Merge(ctx.fields, result.value);
          }
        }
        LegacyRunAllSnoc(rules[..i], rules[i], old(ctx.fields));
        assert rules[..i + 1] == rules[..i] + [rules[i]];
        i := i + 1;
      }
      assert rules[..i] == rules;
      r := ctx;
    }
  }

  /** A new older evaluator holding the rules of `specs`, run over a new
      context object holding `init`. */
  method LegacyEvaluate<O>(specs: seq<RuleSpec<O>>, init: Fields<O>) returns (ctx: Context<O>)
    ensures fresh(ctx)
    ensures ctx.fields == LegacyRunAll(Build(specs), init)
  {
    var engine := new LegacyEngine<O>();
    var i := 0;
    while i < |specs|
      invariant 0 <= i <= |specs|
      invariant |engine.rules| == i
      invariant forall j | 0 <= j < i :: engine.rules[j] == NewRule(specs[j])
    {
      engine.AddRule(specs[i]);
      i := i + 1;
    }
    assert engine.rules == Build(specs);
    ctx := new Context(init);
    var _ := engine.Run(ctx);
  }
}
