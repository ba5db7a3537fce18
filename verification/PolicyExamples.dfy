/**
  Concrete runs on which xcpmd's policy engine does what its callers might not expect.
  Each is an input at which the condition of one of the exact results fails.
 */
module PolicyExamples {
  import opened Options
  import opened PolicyTypes
  import opened PolicyParser
  import opened PolicyPrinter
  import opened PolicyRoundTrip
  import opened PolicyReparse
  import PolicyGrammar
  import opened PolicyVars
  import opened PolicyRules
  import opened PolicyInvariant
  import opened PolicyReload
  import opened PolicyEvents
  import opened PolicyTraces
  import opened PolicySystem

  // ---------------------------------------------------------------------
  // Actions that run twice in a row
  // ---------------------------------------------------------------------

  const always: Config :=
    Config(Registry(map["c" := ConditionType("n", "e")], map["a" := "n"]), ["e"], {}, map[], (c: Call, v: Arg) => true)

  const blank: Engine := Engine([], map[], map[], map[], [])

  function Cond(id: nat, inverted: bool): Condition {
    Condition(id, Call("c", inverted, []))
  }

  /** A rule with n + 1 conditions, all on the same event, inverted or not. */
  function RuleOf(n: nat, inverted: bool): Rule {
    Rule("r", seq(n + 1, i requires 0 <= i => Cond(i, inverted)), [Call("a", false, [])], [])
  }

  lemma Loaded(n: nat, inverted: bool)
    ensures var r := RuleOf(n, inverted);
            var s := Do(always, blank, Load(r));
            && Proper(s) && Resting(always, s) && s.rules == [r] && s.trace == []
            && !IsActive(s.active, r) && Stateful(always, r) && FromScratch(always, s, r)
            && forall c :: c in r.conditions ==> !TrueAt(s.isTrue, c.id)
  {
    hide Unlisted, Proper, Resting;
    var r := RuleOf(n, inverted);
    assert Proper(blank) && Resting(always, blank) by { BlankProper(); }
    LoadResting(always, blank, r);
    forall c | c in r.conditions ensures !TrueAt(Unlisted(map[], r.conditions), c.id) {
      UnlistedFlags(map[], r.conditions, c.id);
    }
  }

  lemma BlankProper()
    ensures Proper(blank) && Resting(always, blank)
  {
  }

  /** evaluate_policy twice in a row, with nothing in between, runs the actions twice. */
  lemma PolicyRepeatsActions()
    ensures var r, s := RuleOf(0, false), EvaluatePolicy(always, Do(always, blank, Load(RuleOf(0, false))));
            && r in s.rules && InStep(s, r) && Project(s.trace, r) == [true]
            && Project(EvaluatePolicy(always, s).trace, r) == [true, true]
            && !InStep(EvaluatePolicy(always, s), r)
  {
    hide EvaluatePolicy, Do, Stateful, FromScratch, RuleOf, Proper, Resting;
    var r, s0 := RuleOf(0, false), Do(always, blank, Load(RuleOf(0, false)));
    var s := EvaluatePolicy(always, s0);
    Loaded(0, false);
    PolicyHolds(s0, r);
    assert Project(s0.trace, r) == [];
    PolicyResting(always, s0);
    FromScratchKept(always, s0, r);
    PolicyHolds(s, r);
    PolicyInStepIff(always, s, r);
  }

  lemma FromScratchKept(cfg: Config, s: Engine, r: Rule)
    requires FromScratch(cfg, s, r)
    ensures FromScratch(cfg, EvaluatePolicy(cfg, s), r)
  {
    hide EvaluatePolicy;
    PolicyKeepsRules(cfg, s);
  }

  // A rule whose checks hold runs its actions and is active afterwards.
  lemma PolicyHolds(s: Engine, r: Rule)
    requires Proper(s) && Resting(always, s) && r in s.rules && Stateful(always, r) && FromScratch(always, s, r)
    ensures var t := EvaluatePolicy(always, s);
            t.rules == s.rules && IsActive(t.active, r) && Project(t.trace, r) == Project(s.trace, r) + [true]
  {
    hide EvaluatePolicy, Stateful, FromScratch, Proper, Evaluate, IsActive;
    PolicyKeepsRules(always, s);
    PolicyActive(always, s, r);
    PolicyResting(always, s);
    PolicyRuns(always, s, r);
  }

  /** One event that changes two conditions of a rule runs its actions twice. */
  lemma EventRepeatsActions(v: Arg)
    ensures var r, s := RuleOf(1, false), Do(always, blank, Load(RuleOf(1, false)));
            && r in s.rules && InStep(s, r)
            && Project(Do(always, s, Event("e", v)).trace, r) == [true, true]
            && !InStep(Do(always, s, Event("e", v)), r)
  {
    hide Handle, Appended, Recheck, Checklist, Listening, Proper, Resting, Changes, ConditionsOn;
    var r, s := RuleOf(1, false), Do(always, blank, Load(RuleOf(1, false)));
    Loaded(1, false);
    var u := s.(value := s.value["e" := v]);
    ValueRests(always, s, "e", v);
    assert Project(u.trace, r) == [];
    assert Changes(always, u.isTrue, r.conditions, "e", v) == 2 by {
      AllChange(always, u.isTrue, r.conditions, "e", v);
      TwoOn(r);
    }
    QualifiesIsEvaluate(always, u, "e", r);
    HandleRuns(always, u, "e", r);
    ProjectAppend(u.trace, Appended(always, u, "e"), r);
    HandleTrace(always, u, "e");
    HandleInStepIff(always, u, "e", r);
    assert Times(true, 2) == [true, true];
  }

  lemma TwoOn(r: Rule)
    requires r == RuleOf(1, false)
    ensures ConditionsOn(always.reg, r.conditions, "e") == 2
  {
    assert r.conditions == [Cond(0, false), Cond(1, false)];
    assert r.conditions[1..] == [Cond(1, false)] && [Cond(1, false)][1..] == [];
    assert ConditionsOn(always.reg, [], "e") == 0;
    assert ConditionsOn(always.reg, [Cond(1, false)], "e") == 1;
  }

  /** A rule whose only condition is `!c()` becomes active when c holds. */
  lemma InverterIgnored()
    ensures var r, s := RuleOf(0, true), EvaluatePolicy(always, Do(always, blank, Load(RuleOf(0, true))));
            && r in s.rules && r.conditions[0].call == Call("c", true, [])
            && IsActive(s.active, r) && Project(s.trace, r) == [true] && !AsWritten(s.isTrue, r)
  {
    hide EvaluatePolicy, Do, Stateful, FromScratch, Proper;
    var r, s0 := RuleOf(0, true), Do(always, blank, Load(RuleOf(0, true)));
    Loaded(0, true);
    PolicyHolds(s0, r);
    assert Project(s0.trace, r) == [];
    PolicyResting(always, s0);
    assert TrueAt(EvaluatePolicy(always, s0).isTrue, r.conditions[0].id);
  }

  // ---------------------------------------------------------------------
  // A rule that uses a variable
  // ---------------------------------------------------------------------

  /** The condition holds while its argument is 1. */
  const modules: Modules :=
    Modules(Registry(map["c" := ConditionType("i", "e")], map["a" := "n"]), ["e"], {}, map[],
            (name: string, args: seq<Option<Arg>>, v: Arg) => args == [Some(IntArg(1))])

  const empty: State := State([], map[], VarStore([], map[]), 0)
  const calls: RuleFns := RuleFns([Fn("c", [VarArg("x")], true)], [Fn("a", [], true)], [])
  const setOne: Op := DefineVar("x", IntArg(1))
  const setTwo: Op := DefineVar("x", IntArg(2))
  const addRule: Op := ApplyRule("r", calls)
  const rule: Rule := Rule("r", [Condition(0, Call("c", false, [VarArg("x")]))], [Call("a", false, [])], [])

  function WithVar(): State {
    Perform(modules.reg, empty, setOne)
  }

  function WithRule(): State {
    Perform(modules.reg, WithVar(), addRule)
  }

  lemma OpsWellFormed()
    ensures Init(empty) && WellFormedOp(setOne) && WellFormedOp(setTwo) && WellFormedOp(addRule)
  {
  }

  lemma VarDefined()
    ensures Inv(modules.reg, WithVar()) && WithVar().rules == [] && WithVar().nextId == 0
    ensures Resolve(WithVar().vars, "x") == Some(IntArg(1))
  {
    hide Inv, AddVar, ArgText, Resolve;
    OpsWellFormed();
    InitInv(modules.reg, empty);
    PerformInv(modules.reg, empty, setOne);
    AddVarEffect(empty.vars, "x", IntArg(1), "x");
    assert AddOutcome(empty.vars, "x", IntArg(1)) == Added by { NothingStored(); }
  }

  lemma NothingStored()
    ensures Resolve(VarStore([], map[]), "x") == None
  {
  }

  lemma RuleBuilt(s: State)
    requires s.nextId == 0
    ensures Built(modules.reg, s, "r", calls) == rule
  {
    var f := calls.conditions;
    assert KnownConditions(modules.reg, f) == [Call("c", false, [VarArg("x")])] by {
      assert f[1..] == [];
    }
    assert KnownActions(modules.reg, calls.actions) == [Call("a", false, [])] by {
      assert calls.actions[1..] == [];
    }
    assert KnownActions(modules.reg, calls.undos) == [];
  }

  lemma RuleValidates(s: State)
    requires s.rules == [] && Resolve(s.vars, "x") == Some(IntArg(1))
    ensures Validate(modules.reg, s, rule) == RuleValid
  {
    hide Resolve;
    var checks := Checks(modules.reg, rule);
    assert CallsOf(rule) == [Call("c", false, [VarArg("x")]), Call("a", false, [])];
    assert checks == [Check("i", [VarArg("x")]), Check("n", [])];
    assert Matches(s.vars, checks[0]) by {
      assert [VarArg("x")][1..] == [];
      assert Letters(s.vars, []) == Some("");
      assert ['i'] + "" == "i";
      assert Letters(s.vars, [VarArg("x")]) == Some("i");
    }
    assert Matches(s.vars, checks[1]);
  }

  lemma RuleLoaded()
    ensures Inv(modules.reg, WithRule()) && WithRule().rules == [rule]
    ensures Resolve(WithRule().vars, "x") == Some(IntArg(1))
    ensures Validate(modules.reg, WithVar(), Built(modules.reg, WithVar(), "r", calls)) == RuleValid
  {
    hide Inv, WithVar, Validate, VarsAfterValidate, Register, Unregister, Bump, RuleArgs, Resolve, Built;
    VarDefined();
    OpsWellFormed();
    RuleBuilt(WithVar());
    RuleValidates(WithVar());
    PerformInv(modules.reg, WithVar(), addRule);
    AppliedValues(modules.reg, WithVar(), "r", calls, "x");
  }

  /** After this run from start-up, clearing the variables leaves a loaded rule with an undefined one. */
  lemma ClearVarsBreaksRun()
    ensures var s := RunOps(modules.reg, empty, [setOne, addRule]);
            && Init(empty) && WellFormedOp(setOne) && WellFormedOp(addRule)
            && Inv(modules.reg, s) && s.rules == [rule] && !NoVarUsed(s.rules)
            && !Inv(modules.reg, ClearVars(s)) && Resolve(ClearVars(s).vars, "x") == None
  {
    hide Inv, Perform, Resolve, NoVarUsed, WellFormedOp, Init;
    OpsWellFormed();
    RuleLoaded();
    RunOfTwo();
    UsesX();
    ClearVarsKeepsInvIff(modules.reg, WithRule());
    NothingStored();
  }

  lemma RunOfTwo()
    ensures RunOps(modules.reg, empty, [setOne, addRule]) == WithRule()
  {
    hide Perform;
    var ops := [setOne, addRule];
    assert ops[..1] == [setOne] && [setOne][..0] == [];
    assert RunOps(modules.reg, empty, []) == empty;
    assert RunOps(modules.reg, empty, [setOne]) == WithVar();
  }

  lemma UsesX()
    ensures !NoVarUsed([rule])
  {
    NamedIsUsed([rule], rule, 0, 0);
  }

  // ---------------------------------------------------------------------
  // A rule that goes stale
  // ---------------------------------------------------------------------

  /** Define x as 1, load a rule that checks x, evaluate the policy, then overwrite x with 2. */
  const staleRun: seq<Command> := [Change(setOne), Change(addRule), Reevaluate, Change(setTwo)]

  function StaleStates(): seq<System> {
    var s0 := System(empty, blank);
    var s1 := Advance(modules, s0, Change(setOne));
    var s2 := Advance(modules, s1, Change(addRule));
    var s3 := Advance(modules, s2, Reevaluate);
    [s0, s1, s2, s3, Advance(modules, s3, Change(setTwo))]
  }

  lemma StaleIsRun()
    ensures PolicySystem.Run(modules, StaleStates(), staleRun) && PolicySystem.Start(StaleStates()[0])
    ensures Linked(modules, StaleStates()[0])
  {
    hide Advance, Linked;
    OpsWellFormed();
    StartLinked(modules, System(empty, blank));
  }

  lemma StaleLoaded()
    ensures StaleStates()[2].store == WithRule() && rule in StaleStates()[2].engine.rules
    ensures Linked(modules, StaleStates()[2])
  {
    hide Linked, StaleStates, WithRule;
    StaleIsRun();
    RunLinked(modules, StaleStates(), staleRun, 2);
    RuleLoaded();
    StaleStores();
    assert StaleStates()[2].engine.rules == [rule] by { LinkedRules(StaleStates()[2]); }
  }

  lemma StaleStores()
    ensures StaleStates()[2].store == WithRule()
  {
    hide Do, Perform, OccurrenceOf;
  }

  lemma LinkedRules(y: System)
    requires Linked(modules, y)
    ensures y.engine.rules == y.store.rules
  {
  }

  lemma RuleIsStateful(s: VarStore)
    ensures Stateful(ConfigFor(modules, s), rule)
  {
  }

  lemma RuleHoldsIff(s: VarStore, g: Engine)
    ensures FromScratch(ConfigFor(modules, s), g, rule) <==> Resolve(s, "x") == Some(IntArg(1))
  {
    hide Resolve, ValueAt;
    var c, cfg := rule.conditions[0], ConfigFor(modules, s);
    assert Resolved(s, c.call.args) == [Resolve(s, "x")];
    assert c in rule.conditions;
    assert cfg.check(c.call, ValueAt(cfg, g.value, EventOf(cfg.reg, c))) <==> Resolve(s, "x") == Some(IntArg(1));
  }

  /**
    xcpmd does not recheck a rule when one of its variables is overwritten: at the end of
    this run from start-up the rule is still active although its check fails.
   */
  lemma OverwriteGoesStale()
    ensures var states := StaleStates();
            && PolicySystem.Run(modules, states, staleRun) && PolicySystem.Start(states[0])
            && rule in states[4].engine.rules && IsActive(states[4].engine.active, rule)
            && !FromScratch(ConfigFor(modules, states[4].store.vars), states[4].engine, rule)
  {
    hide EvaluatePolicy, Linked, Inv, FromScratch, IsActive, Resolve, Stateful, StaleStates, ConfigFor, Perform, Proper,
         Resting;
    var states := StaleStates();
    StaleIsRun();
    StaleLoaded();
    RuleLoaded();
    StaleActive(states[2]);
    StaleOverwritten(states[2]);
    StaleEnds();
  }

  lemma StaleEnds()
    ensures StaleStates()[4] == Advance(modules, Advance(modules, StaleStates()[2], Reevaluate), Change(setTwo))
  {
  }

  lemma StaleActive(y: System)
    requires Linked(modules, y) && rule in y.engine.rules && Resolve(y.store.vars, "x") == Some(IntArg(1))
    ensures var z := Advance(modules, y, Reevaluate);
            z.store == y.store && rule in z.engine.rules && IsActive(z.engine.active, rule)
  {
    hide EvaluatePolicy, Inv, FromScratch, IsActive, Resolve, Stateful, ConfigFor, Proper, Resting;
    var cfg := ConfigFor(modules, y.store.vars);
    RuleIsStateful(y.store.vars);
    RuleHoldsIff(y.store.vars, y.engine);
    PolicyActive(cfg, y.engine, rule);
    PolicyKeepsRules(cfg, y.engine);
  }

  lemma StaleOverwritten(y: System)
    requires Linked(modules, y) && rule in y.engine.rules && Resolve(y.store.vars, "x") == Some(IntArg(1))
    requires IsActive(Advance(modules, y, Reevaluate).engine.active, rule)
    ensures var z := Advance(modules, Advance(modules, y, Reevaluate), Change(setTwo));
            && rule in z.engine.rules && IsActive(z.engine.active, rule)
            && !FromScratch(ConfigFor(modules, z.store.vars), z.engine, rule)
  {
    hide EvaluatePolicy, FromScratch, IsActive, Resolve, ConfigFor, Proper, Resting, AddVar, Coherent, RefsExact,
         IndexExact, TypesSound;
    AddVarEffect(y.store.vars, "x", IntArg(2), "x");
    RuleHoldsIff(Advance(modules, Advance(modules, y, Reevaluate), Change(setTwo)).store.vars,
                 Advance(modules, Advance(modules, y, Reevaluate), Change(setTwo)).engine);
  }

  // ---------------------------------------------------------------------
  // What storing loses
  // ---------------------------------------------------------------------

  /** An action written with an inverter parses, and comes back from the DB without it. */
  lemma InverterLost()
    ensures var t := RuleText("c()", "!a()", "");
            && IsCString(t.conditions) && IsCString(t.actions) && IsCString(t.undos)
            && ParseRule(t, map[]).Some?
            && var f := ParseRule(t, map[]).value;
            && f.actions == [Fn("a", [], false)]
            && var again := RuleTextOf(RuleJson(CallsOfFns(f)));
            && again == Some(RuleText("c()", "a()", ""))
            && ParseRule(again.value, map[]) != Some(f)
  {
    hide ParseRule, RuleTextOf, RuleJson;
    var c, a := Call("c", false, []), Call("a", true, []);
    var r := RuleCalls([c], [a], []);
    assert CallText(c) == "c()" && CallText(a) == "!a()";
    TextRoundTrip(r, map[]);
    var f := FnsOf(r);
    assert f.actions == [Fn("a", [], false)];
    ParseStoreParse(RuleText("c()", "!a()", ""), map[], f);
    var q := CallsOfFns(f);
    assert q.conditions == [c] && q.actions == [Call("a", false, [])] && q.undos == [];
    assert CallText(q.actions[0]) == "a()";
    JsonRoundTrip(q);
  }

  /** A tenth of a millionth comes back from the DB as nothing. */
  lemma FloatDigitsLost(name: string)
    requires IsIdentifier(name)
    ensures var text := name + "(" + ArgText(FloatArg(0.0000001)) + ")";
            IsCString(text) && ParseArg(text, map[]) == Value(FloatArg(0.0))
  {
    hide ArgText, ParseArg;
    assert Micros(0.0000001) == 0;
    RoundedTwice(FloatArg(0.0000001));
    ValueRoundTrip(name, FloatArg(0.0000001), map[]);
  }

  const tiny: Op := DefineVar("x", FloatArg(0.0000001))

  /** Reloading the policy changes a variable that was defined with more than six decimals. */
  lemma ReloadChangesFloat()
    ensures var s := RunOps(modules.reg, empty, [tiny]);
            var u := Reloaded(modules.reg, s, ["x"]);
            && Init(empty) && WellFormedOp(tiny) && NamesOfDb(["x"], s.vars.db)
            && Resolve(s.vars, "x") == Some(FloatArg(0.0000001)) && Resolve(u.vars, "x") == Some(FloatArg(0.0))
  {
    hide Inv, ArgText, ReadDb, Resolve, Reloaded, CacheExact;
    var s := Perform(modules.reg, empty, tiny);
    TinyDefined();
    OpsWellFormed();
    InitInv(modules.reg, empty);
    PerformInv(modules.reg, empty, tiny);
    assert [tiny][..0] == [] && RunOps(modules.reg, empty, []) == empty;
    ReloadRestoresPolicy(modules.reg, s, ["x"]);
    TinyStored(s);
  }

  lemma TinyStored(s: State)
    requires Inv(modules.reg, s) && Resolve(s.vars, "x") == Some(FloatArg(0.0000001))
    ensures ReadDb(s.vars.db, "x") == Some(FloatArg(0.0))
  {
    hide ReadDb, Resolve, Coherent, ArgText;
    assert Micros(0.0000001) == 0;
    CacheAgreesWithDb(s.vars, "x");
  }

  lemma TinyDefined()
    ensures var s := Perform(modules.reg, empty, tiny);
            && WellFormedOp(tiny) && s.rules == [] && s.vars.db.Keys == {"x"}
            && Resolve(s.vars, "x") == Some(FloatArg(0.0000001))
  {
    hide ArgText, Resolve;
    RoundedTwice(FloatArg(0.0000001));
    NothingStored();
    OpsWellFormed();
    InitInv(modules.reg, empty);
    AddVarEffect(empty.vars, "x", FloatArg(0.0000001), "x");
    assert Looked(empty.vars, "x") == empty.vars;
  }

  // ---------------------------------------------------------------------
  // A refused definition that goes unreported
  // ---------------------------------------------------------------------

  function BoolDef(name: char, b: char): string {
    [name, '(', b, ')']
  }

  lemma BoolDefRead(name: char, b: char, rest: string, known: map<string, char>)
    requires name in {'x', 'y'} && b in {'t', 'f'}
    ensures PolicyGrammar.ReadOneCall(BoolDef(name, b) + rest, known) ==
            Some(PolicyGrammar.OneCall(Fn([name], [BoolArg(b == 't')], true), rest))
  {
    var s := BoolDef(name, b) + rest;
    assert s[1..][0] == '(' && PolicyGrammar.NameLength(s[1..]) == 0;
    assert PolicyGrammar.NameLength(s) == 1 && s[..1] == [name];
    var args := s[2..];
    assert args[0] == b && args[1..][0] == ')' && args[1..][1..] == rest;
    assert PolicyGrammar.ReadLiteral(args, known) == Some(PolicyGrammar.Literal([BoolArg(b == 't')], args[1..]));
    assert PolicyGrammar.ReadArgList(args, known) == Some(PolicyGrammar.Literal([BoolArg(b == 't')], rest));
  }

  lemma DefinitionStep(name: char, b: char, rest: string, v: Vars, ok: bool)
    requires name in {'x', 'y'} && b in {'t', 'f'} && (rest == "" || rest[0] == ' ')
    ensures var a := BoolArg(b == 't');
            var refused := PolicyGrammar.Refuses(v, [name], a);
            var w := if refused then v else Vars(v.known[[name] := 'b'], v.defined + [VarDef([name], a)]);
            PolicyGrammar.ReadDefinitions(BoolDef(name, b) + rest, v, ok) ==
            if rest == "" then Some(PolicyGrammar.Definitions(w, !refused))
            else PolicyGrammar.ReadDefinitions(rest[1..], w, !refused)
  {
    hide PolicyGrammar.ReadOneCall, PolicyGrammar.Refuses;
    BoolDefRead(name, b, rest, v.known);
    assert (BoolDef(name, b) + rest)[0] == name;
  }

  const twice: string := BoolDef('x', 'f') + (" " + (BoolDef('y', 't') + ""))

  lemma SecondIsRefused()
    ensures var x := VarDef("x", BoolArg(true));
            var v := Vars(map["x" := 'b'], [x]);
            PolicyGrammar.ReadDefinitions(twice, v, true) ==
            Some(PolicyGrammar.Definitions(Vars(v.known["y" := 'b'], [x] + [VarDef("y", BoolArg(true))]), true))
  {
    hide PolicyGrammar.ReadDefinitions;
    var x := VarDef("x", BoolArg(true));
    var v, rest := Vars(map["x" := 'b'], [x]), " " + (BoolDef('y', 't') + "");
    DefinitionStep('x', 'f', rest, v, true);
    assert rest[1..] == BoolDef('y', 't') + "";
    assert PolicyGrammar.Refuses(v, "x", BoolArg(false)) by { assert x in v.defined; }
    DefinitionStep('y', 't', "", v, false);
    assert !PolicyGrammar.Refuses(v, "y", BoolArg(true));
  }

  /**
    The verdict on a text of definitions is that of its last one: here x is defined twice,
    the second definition is refused, and the text is reported as good.
   */
  lemma RefusalUnreported()
    ensures IsCString("x(t) x(f) y(t)")
    ensures var r := PolicyParser.Run(Fresh("x(t) x(f) y(t)", "", "", ForVarMap, map[]));
            r.ok && r.m.vars.defined == [VarDef("x", BoolArg(true)), VarDef("y", BoolArg(true))]
  {
    hide PolicyGrammar.ReadDefinitions, PolicyParser.Run, PolicyGrammar.Refuses;
    var x, y := VarDef("x", BoolArg(true)), VarDef("y", BoolArg(true));
    var text := "x(t) x(f) y(t)";
    assert text == BoolDef('x', 't') + (" " + twice);
    DefinitionStep('x', 't', " " + twice, Vars(map[], []), true);
    assert (" " + twice)[1..] == twice;
    assert !PolicyGrammar.Refuses(Vars(map[], []), "x", BoolArg(true)) by { NothingRefused(); }
    SecondIsRefused();
    assert [] + [x] == [x] && [x] + [y] == [x, y];
    PolicyGrammar.DefinitionsReadLanguage(text, map[]);
  }

  lemma NothingRefused()
    ensures !PolicyGrammar.Refuses(Vars(map[], []), "x", BoolArg(true))
  {
  }
}
